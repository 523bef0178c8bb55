/** The snippet record shared by every part of the extension, its stored
    JSON form, and the id arithmetic used by the store and the import path. */
module Types {
  import opened Values

  /** A copypasta: `{ id, content, tags, channels }`. */
  datatype CopyPasta = CopyPasta(id: int, content: string, tags: seq<string>, channels: seq<string>)

  function StrValues(ss: seq<string>): (r: seq<Value>)
    ensures |r| == |ss| && forall i :: 0 <= i < |ss| ==> r[i] == Str(ss[i])
  {
    seq(|ss|, i requires 0 <= i < |ss| => Str(ss[i]))
  }

  /** What `JSON.parse(JSON.stringify(cp))` reads back: the four fields and nothing else. */
  function Encode(cp: CopyPasta): RawRecord {
    RawRecord(Num(cp.id), Str(cp.content), Undefined, Undefined,
              Arr(StrValues(cp.tags)), Arr(StrValues(cp.channels)), Undefined)
  }

  function EncodeAll(items: seq<CopyPasta>): (r: seq<RawRecord>)
    ensures |r| == |items| && forall i :: 0 <= i < |items| ==> r[i] == Encode(items[i])
  {
    seq(|items|, i requires 0 <= i < |items| => Encode(items[i]))
  }

  /** `items.reduce((m, c) => Math.max(m, c.id), 0)`. */
  function MaxId(items: seq<CopyPasta>): (m: int)
    ensures m >= 0
    ensures forall i :: 0 <= i < |items| ==> items[i].id <= m
    ensures m == 0 || exists i :: 0 <= i < |items| && items[i].id == m
  {
    if items == [] then 0
    else
      var m := MaxId(items[..|items| - 1]);
      var last := items[|items| - 1].id;
      if last > m then last else m
  }

  /** `items.length ? 1 + max(ids, 0) : 1`: the id given to a new record. */
  function NextId(items: seq<CopyPasta>): (r: int)
    ensures r >= 1
    ensures forall i :: 0 <= i < |items| ==> items[i].id < r
    ensures r == 1 || exists i :: 0 <= i < |items| && items[i].id == r - 1
  {
    if |items| > 0 then 1 + MaxId(items) else 1
  }

  predicate DistinctIds(items: seq<CopyPasta>) {
    forall i, j :: 0 <= i < j < |items| ==> items[i].id != items[j].id
  }

  /** `items.findIndex(cp => cp.id === id)`. */
  function FindIndexById(items: seq<CopyPasta>, id: int): (r: int)
    ensures -1 <= r < |items|
    ensures r == -1 <==> forall i :: 0 <= i < |items| ==> items[i].id != id
    ensures r >= 0 ==> items[r].id == id && forall i :: 0 <= i < r ==> items[i].id != id
  {
    if items == [] then -1
    else if items[0].id == id then 0
    else
      var k := FindIndexById(items[1..], id);
      if k == -1 then -1 else k + 1
  }

  /** `items.splice(i, 1)` on a copy. */
  function RemoveAt<T>(s: seq<T>, i: nat): (r: seq<T>)
    requires i < |s|
    ensures |r| == |s| - 1
    ensures forall k :: 0 <= k < i ==> r[k] == s[k]
    ensures forall k :: i <= k < |r| ==> r[k] == s[k + 1]
  {
    s[..i] + s[i + 1..]
  }

  /** A record whose id is not in the list can be appended keeping ids distinct. */
  lemma AppendFreshDistinct(items: seq<CopyPasta>, cp: CopyPasta)
    requires DistinctIds(items) && FindIndexById(items, cp.id) == -1
    ensures DistinctIds(items + [cp])
  {
    var r := items + [cp];
    assert forall i :: 0 <= i < |items| ==> r[i] == items[i];
  }

  /** Appending a record with the next id keeps ids distinct. */
  lemma AppendNextIdDistinct(items: seq<CopyPasta>, cp: CopyPasta)
    requires DistinctIds(items) && cp.id == NextId(items)
    ensures DistinctIds(items + [cp])
  {
  }
}
