/** String primitives the extension relies on: `trim`, `toLowerCase`, `includes`,
    `split` on separator runs, `replace(/^c/, '')` and Set-based de-duplication.
    Strings are sequences of characters; a character counts as one position. */
module Strings {

  /** The ECMAScript WhiteSpace and LineTerminator code points: what `trim`
      strips and what the regular-expression class `\s` matches. */
  predicate IsWhite(c: char) {
    c == ' ' || c == '\t' || c == '\n' || c == '\r' || c == '\U{000B}' || c == '\U{000C}'
    || c == '\U{00A0}' || c == '\U{1680}' || ('\U{2000}' <= c <= '\U{200A}')
    || c == '\U{2028}' || c == '\U{2029}' || c == '\U{202F}' || c == '\U{205F}'
    || c == '\U{3000}' || c == '\U{FEFF}'
  }

  predicate AllWhite(s: string) {
    forall i :: 0 <= i < |s| ==> IsWhite(s[i])
  }

  /** A string with no whitespace at either end. */
  predicate IsTrimmed(s: string) {
    s == [] || (!IsWhite(s[0]) && !IsWhite(s[|s| - 1]))
  }

  function TrimStart(s: string): (r: string)
    ensures |r| <= |s|
    ensures r == [] || !IsWhite(r[0])
    decreases |s|
  {
    if s != [] && IsWhite(s[0]) then TrimStart(s[1..]) else s
  }

  /** TrimStart drops a blank prefix and keeps the rest. */
  lemma {:induction false} TrimStartDrops(s: string)
    ensures TrimStart(s) == s[|s| - |TrimStart(s)|..]
    ensures AllWhite(s[..|s| - |TrimStart(s)|])
    decreases |s|
  {
    if s != [] && IsWhite(s[0]) {
      TrimStartDrops(s[1..]);
      var k := |s| - |TrimStart(s)|;
      assert s[1..][..k - 1] == s[1..k];
      assert s[1..][k - 1..] == s[k..];
    }
  }

  function TrimEnd(s: string): (r: string)
    ensures |r| <= |s|
    ensures r == [] || !IsWhite(r[|r| - 1])
    decreases |s|
  {
    if s != [] && IsWhite(s[|s| - 1]) then TrimEnd(s[..|s| - 1]) else s
  }

  /** TrimEnd drops a blank suffix and keeps the rest. */
  lemma {:induction false} TrimEndDrops(s: string)
    ensures TrimEnd(s) == s[..|TrimEnd(s)|]
    ensures AllWhite(s[|TrimEnd(s)|..])
    decreases |s|
  {
    if s != [] && IsWhite(s[|s| - 1]) {
      TrimEndDrops(s[..|s| - 1]);
      var k := |TrimEnd(s)|;
      assert s[..|s| - 1][..k] == s[..k];
      assert s[..|s| - 1][k..] == s[k..|s| - 1];
    }
  }

  lemma {:induction false} TrimEndKeepsFirst(s: string)
    requires s != [] && !IsWhite(s[0])
    ensures TrimEnd(s) != [] && TrimEnd(s)[0] == s[0]
    decreases |s|
  {
    if IsWhite(s[|s| - 1]) {
      TrimEndKeepsFirst(s[..|s| - 1]);
    }
  }

  /** `String.prototype.trim`. */
  function Trim(s: string): (r: string)
    ensures IsTrimmed(r)
    ensures |r| <= |s|
  {
    var t := TrimStart(s);
    if t == [] then TrimEnd(t)
    else
      TrimEndKeepsFirst(t);
      TrimEnd(t)
  }

  /** Trimming is the identity exactly on trimmed strings. */
  lemma TrimFixed(s: string)
    ensures Trim(s) == s <==> IsTrimmed(s)
  {
    if IsTrimmed(s) {
      assert TrimStart(s) == s;
      assert TrimEnd(s) == s;
    }
  }

  /** A trimmed string stays trimmed: `trim` is idempotent. */
  lemma TrimIdempotent(s: string)
    ensures Trim(Trim(s)) == Trim(s)
  {
    TrimFixed(Trim(s));
  }

  /** `trim` yields the empty string exactly for blank input. */
  lemma {:induction false} TrimEmptyIffBlank(s: string)
    ensures Trim(s) == [] <==> AllWhite(s)
  {
    var t := TrimStart(s);
    TrimStartDrops(s);
    if t != [] {
      TrimEndKeepsFirst(t);
      assert s[|s| - |t|] == t[0];
    } else {
      assert s[..|s| - |t|] == s;
    }
  }

  lemma TrimmedNonWhiteStart(s: string)
    requires s != [] && IsTrimmed(s)
    ensures !AllWhite(s)
  {
  }

  /** Trimming only removes characters. */
  lemma TrimChars(s: string)
    ensures forall x :: x in Trim(s) ==> x in s
  {
    var t := TrimStart(s);
    TrimStartDrops(s);
    TrimEndDrops(t);
    forall x | x in Trim(s)
      ensures x in s
    {
      var i :| 0 <= i < |Trim(s)| && Trim(s)[i] == x;
      assert t[i] == x;
      assert s[|s| - |t| + i] == x;
    }
  }

  /** Trailing whitespace after a trimmed string is what `trim` removes. */
  lemma TrimWhiteSuffix(s: string, w: string)
    requires IsTrimmed(s) && AllWhite(w)
    ensures Trim(s + w) == s
  {
    if s == [] {
      assert s + w == w;
      TrimEmptyIffBlank(w);
    } else {
      assert TrimStart(s + w) == s + w;
      TrimEndWhiteSuffix(s, w);
    }
  }

  lemma {:induction false} TrimEndWhiteSuffix(s: string, w: string)
    requires s != [] && !IsWhite(s[|s| - 1]) && AllWhite(w)
    ensures TrimEnd(s + w) == s
    decreases |w|
  {
    if w == [] {
      assert s + w == s;
    } else {
      var init := w[..|w| - 1];
      assert (s + w)[..|s + w| - 1] == s + init;
      TrimEndWhiteSuffix(s, init);
    }
  }

  /** ASCII case folding of one character; other characters are kept. */
  function LowerChar(c: char): char {
    if 'A' <= c <= 'Z' then (c as int + 32) as char else c
  }

  /** `String.prototype.toLowerCase`, restricted to ASCII letters. */
  function Lower(s: string): (r: string)
    ensures |r| == |s|
    ensures forall i :: 0 <= i < |s| ==> r[i] == LowerChar(s[i])
  {
    seq(|s|, i requires 0 <= i < |s| => LowerChar(s[i]))
  }

  lemma LowerAppend(a: string, b: string)
    ensures Lower(a + b) == Lower(a) + Lower(b)
  {
  }

  lemma LowerIdempotent(s: string)
    ensures Lower(Lower(s)) == Lower(s)
  {
  }

  lemma LowerEmpty(s: string)
    ensures Lower(s) == [] <==> s == []
  {
  }

  /** Characters of the channel pattern `^[a-z0-9_]+$`. */
  predicate IsChannelChar(c: char) {
    ('a' <= c <= 'z') || ('0' <= c <= '9') || c == '_'
  }

  /** The regular expression `^[a-z0-9_]+$`. */
  predicate IsChannelName(s: string) {
    |s| > 0 && forall i :: 0 <= i < |s| ==> IsChannelChar(s[i])
  }

  /** A channel name is fixed by trimming and lowercasing. */
  lemma ChannelNameCanonical(s: string)
    requires IsChannelName(s)
    ensures Trim(s) == s && Lower(s) == s
  {
    TrimFixed(s);
  }

  /** `s.replace(/^c/, '')`: drops one leading `c`. */
  function StripLeading(s: string, c: char): (r: string)
    ensures r == s || (s != [] && s[0] == c && r == s[1..])
  {
    if s != [] && s[0] == c then s[1..] else s
  }

  /** `s.replace(new RegExp(c, 'g'), '')`: drops every `c`. */
  function RemoveAll(s: string, c: char): (r: string)
    ensures c !in r
    ensures forall x :: x in r ==> x in s
    ensures c !in s ==> r == s
  {
    if s == [] then [] else (if s[0] == c then [] else [s[0]]) + RemoveAll(s[1..], c)
  }

  lemma {:induction false} RemoveAllAppend(a: string, b: string, c: char)
    ensures RemoveAll(a + b, c) == RemoveAll(a, c) + RemoveAll(b, c)
    decreases |a|
  {
    if a == [] {
      assert a + b == b;
    } else {
      assert (a + b)[1..] == a[1..] + b;
      RemoveAllAppend(a[1..], b, c);
    }
  }

  /** `haystack.includes(needle)`: some suffix of the haystack starts with the needle. */
  predicate Includes(haystack: string, needle: string)
    decreases |haystack|
  {
    needle <= haystack || (haystack != [] && Includes(haystack[1..], needle))
  }

  /** After lowercasing `a + sep + b`, both `a` and `b` can be found in it. */
  lemma LowerIncludesParts(a: string, sep: string, b: string)
    ensures Includes(Lower(a + (sep + b)), Lower(a))
    ensures Includes(Lower(a + (sep + b)), Lower(b))
  {
    LowerAppend(a, sep + b);
    assert Lower(a) <= Lower(a) + Lower(sep + b);
    assert a + (sep + b) == (a + sep) + b;
    LowerAppend(a + sep, b);
    IncludesSuffix(Lower(a + sep), Lower(b));
  }

  lemma {:induction false} IncludesSuffix(prefix: string, s: string)
    ensures Includes(prefix + s, s)
    decreases |prefix|
  {
    if prefix != [] {
      assert (prefix + s)[1..] == prefix[1..] + s;
      IncludesSuffix(prefix[1..], s);
    }
  }

  /** The separator sets used with `split`. */
  datatype Sep = White | Comma | WhiteOrComma

  predicate IsSep(sep: Sep, c: char) {
    match sep
    case White => IsWhite(c)
    case Comma => c == ','
    case WhiteOrComma => IsWhite(c) || c == ','
  }

  predicate NoSep(sep: Sep, s: string) {
    forall i :: 0 <= i < |s| ==> !IsSep(sep, s[i])
  }

  /** The longest prefix free of separators. */
  function Run(s: string, sep: Sep): (r: string)
    ensures r <= s && NoSep(sep, r)
    ensures |r| == |s| || IsSep(sep, s[|r|])
    ensures s != [] && !IsSep(sep, s[0]) ==> |r| > 0
    decreases |s|
  {
    if s == [] || IsSep(sep, s[0]) then [] else [s[0]] + Run(s[1..], sep)
  }

  /** `s.split(/sep+/).filter(Boolean)`: the non-empty maximal runs of
      non-separators, in order. */
  function Tokens(s: string, sep: Sep): (r: seq<string>)
    ensures |r| <= |s|
    decreases |s|
  {
    if s == [] then []
    else if IsSep(sep, s[0]) then Tokens(s[1..], sep)
    else
      var w := Run(s, sep);
      [w] + Tokens(s[|w|..], sep)
  }

  /** Every token is non-empty and free of separators. */
  lemma {:induction false} TokensWellFormed(s: string, sep: Sep)
    ensures forall i :: 0 <= i < |Tokens(s, sep)| ==> Tokens(s, sep)[i] != [] && NoSep(sep, Tokens(s, sep)[i])
    decreases |s|
  {
    if s != [] {
      if IsSep(sep, s[0]) {
        TokensWellFormed(s[1..], sep);
      } else {
        TokensWellFormed(s[|Run(s, sep)|..], sep);
      }
    }
  }

  lemma {:induction false} RunStopsAtSep(a: string, z: string, sep: Sep)
    requires |Run(a, sep)| < |a| || (z != [] && IsSep(sep, z[0]))
    ensures Run(a + z, sep) == Run(a, sep)
    decreases |a|
  {
    if a == [] {
    } else if IsSep(sep, a[0]) {
    } else {
      var t := a[1..];
      assert a == [a[0]] + t;
      assert a + z == [a[0]] + (t + z);
      RunCons(a[0], t, sep);
      RunStopsAtSep(t, z, sep);
      RunCons(a[0], t + z, sep);
    }
  }

  lemma RunCons(x: char, s: string, sep: Sep)
    requires !IsSep(sep, x)
    ensures Run([x] + s, sep) == [x] + Run(s, sep)
  {
    assert ([x] + s)[1..] == s;
  }

  /** A separator between two strings splits their tokens apart. */
  lemma TokensSplit(a: string, c: char, b: string, sep: Sep)
    requires IsSep(sep, c)
    ensures Tokens(a + [c] + b, sep) == Tokens(a, sep) + Tokens(b, sep)
  {
    AppendAssoc(a, [c], b);
    assert ([c] + b)[1..] == b;
    TokensBeforeSep(a, [c] + b, sep);
  }

  /** Tokens of `a + z` where `z` starts with a separator. */
  lemma {:induction false} TokensBeforeSep(a: string, z: string, sep: Sep)
    requires z != [] && IsSep(sep, z[0])
    ensures Tokens(a + z, sep) == Tokens(a, sep) + Tokens(z, sep)
    decreases |a|
  {
    if a == [] {
      assert a + z == z;
    } else if IsSep(sep, a[0]) {
      SliceOfAppend(a, z, 1);
      TokensBeforeSep(a[1..], z, sep);
    } else {
      TokensBeforeSep(a[|Run(a, sep)|..], z, sep);
      TokensAfterRun(a, z, sep);
    }
  }

  /** The step of TokensBeforeSep where the string starts with a token. */
  lemma TokensAfterRun(a: string, z: string, sep: Sep)
    requires z != [] && IsSep(sep, z[0]) && a != [] && !IsSep(sep, a[0])
    requires Tokens(a[|Run(a, sep)|..] + z, sep) == Tokens(a[|Run(a, sep)|..], sep) + Tokens(z, sep)
    ensures Tokens(a + z, sep) == Tokens(a, sep) + Tokens(z, sep)
  {
    FirstTokenBeforeSep(a, z, sep);
    TokensAtToken(a, sep);
  }

  /** A separator after `a` leaves the first token of `a` intact. */
  lemma FirstTokenBeforeSep(a: string, z: string, sep: Sep)
    requires z != [] && IsSep(sep, z[0]) && a != [] && !IsSep(sep, a[0])
    ensures Tokens(a + z, sep) == [Run(a, sep)] + Tokens(a[|Run(a, sep)|..] + z, sep)
  {
    RunStopsAtSep(a, z, sep);
    SliceOfAppend(a, z, |Run(a, sep)|);
    TokensAtToken(a + z, sep);
  }

  lemma AppendAssoc<T>(a: seq<T>, b: seq<T>, c: seq<T>)
    ensures a + b + c == a + (b + c)
  {
  }

  lemma SliceOfAppend<T>(a: seq<T>, z: seq<T>, k: nat)
    requires k <= |a|
    ensures (a + z)[k..] == a[k..] + z
  {
  }

  lemma TokensAtToken(s: string, sep: Sep)
    requires s != [] && !IsSep(sep, s[0])
    ensures Tokens(s, sep) == [Run(s, sep)] + Tokens(s[|Run(s, sep)|..], sep)
  {
  }

  /** A non-empty separator-free string is a single token. */
  lemma TokensSingle(t: string, sep: Sep)
    requires t != [] && NoSep(sep, t)
    ensures Tokens(t, sep) == [t]
  {
    assert Run(t, sep) == t;
    assert t[|t|..] == [];
  }

  /** Blank strings have no tokens. */
  lemma {:induction false} TokensBlank(s: string)
    requires AllWhite(s)
    ensures Tokens(s, White) == []
    decreases |s|
  {
    if s != [] {
      TokensBlank(s[1..]);
    }
  }

  /** Trailing whitespace adds no token. */
  lemma TokensWhiteSuffix(a: string, w: string)
    requires AllWhite(w)
    ensures Tokens(a + w, White) == Tokens(a, White)
  {
    if w == [] {
      assert a + w == a;
    } else {
      assert a + w == a + [w[0]] + w[1..];
      TokensSplit(a, w[0], w[1..], White);
      TokensBlank(w[1..]);
    }
  }

  lemma {:induction false} TokensTrimStart(s: string)
    ensures Tokens(TrimStart(s), White) == Tokens(s, White)
    decreases |s|
  {
    if s != [] && IsWhite(s[0]) {
      TokensTrimStart(s[1..]);
    }
  }

  /** Splitting on whitespace runs ignores the whitespace `trim` removes. */
  lemma TokensTrim(s: string)
    ensures Tokens(Trim(s), White) == Tokens(s, White)
  {
    var t := TrimStart(s);
    TokensTrimStart(s);
    TrimEndDrops(t);
    var e := TrimEnd(t);
    assert t == e + t[|e|..];
    TokensWhiteSuffix(e, t[|e|..]);
  }

  /** `parts.join(glue)`; no parts join to the empty string. */
  function JoinWith(parts: seq<string>, glue: string): string {
    if parts == [] then []
    else if |parts| == 1 then parts[0]
    else parts[0] + glue + JoinWith(parts[1..], glue)
  }

  /** Leading separators add no token. */
  lemma {:induction false} TokensSkipSeps(g: string, b: string, sep: Sep)
    requires forall i :: 0 <= i < |g| ==> IsSep(sep, g[i])
    ensures Tokens(g + b, sep) == Tokens(b, sep)
    decreases |g|
  {
    if g == [] {
      assert g + b == b;
    } else {
      SliceOfAppend(g, b, 1);
      TokensSkipSeps(g[1..], b, sep);
    }
  }

  /** Tokens separated by a glue of separators split back into the tokens. */
  lemma {:induction false} TokensJoinWith(parts: seq<string>, glue: string, sep: Sep)
    requires glue != [] && forall i :: 0 <= i < |glue| ==> IsSep(sep, glue[i])
    requires forall i :: 0 <= i < |parts| ==> parts[i] != [] && NoSep(sep, parts[i])
    ensures Tokens(JoinWith(parts, glue), sep) == parts
    decreases |parts|
  {
    if |parts| == 1 {
      TokensSingle(parts[0], sep);
    } else if |parts| > 1 {
      var rest := JoinWith(parts[1..], glue);
      TokensJoinWith(parts[1..], glue, sep);
      AppendAssoc(parts[0], glue, rest);
      TokensBeforeSep(parts[0], glue + rest, sep);
      TokensSkipSeps(glue, rest, sep);
      TokensSingle(parts[0], sep);
      assert parts == [parts[0]] + parts[1..];
    }
  }

  /** `s.split(c)`: the pieces between occurrences of `c`, empty ones included. */
  function Split(s: string, c: char): (r: seq<string>)
    ensures |r| >= 1
    decreases |s|
  {
    if s == [] then [[]]
    else
      var rest := Split(s[1..], c);
      if s[0] == c then [[]] + rest
      else [[s[0]] + rest[0]] + rest[1..]
  }

  /** `parts.join(c)`. */
  function Join(parts: seq<string>, c: char): string
    requires |parts| >= 1
  {
    if |parts| == 1 then parts[0] else parts[0] + [c] + Join(parts[1..], c)
  }

  /** No piece of a split contains the separator. */
  lemma {:induction false} SplitPiecesFree(s: string, c: char)
    ensures forall i :: 0 <= i < |Split(s, c)| ==> c !in Split(s, c)[i]
    decreases |s|
  {
    if s != [] {
      SplitPiecesFree(s[1..], c);
    }
  }

  /** Joining the pieces of a split gives back the string. */
  lemma {:induction false} JoinSplit(s: string, c: char)
    ensures Join(Split(s, c), c) == s
    decreases |s|
  {
    if s != [] {
      var rest := Split(s[1..], c);
      JoinSplit(s[1..], c);
      if s[0] == c {
        JoinEmptyFirst(rest, c);
      } else {
        JoinExtendFirst(s[0], rest, c);
      }
      assert s == [s[0]] + s[1..];
    }
  }

  lemma JoinEmptyFirst(parts: seq<string>, c: char)
    requires |parts| >= 1
    ensures Join([[]] + parts, c) == [c] + Join(parts, c)
  {
    assert ([[]] + parts)[1..] == parts;
  }

  lemma JoinExtendFirst(x: char, parts: seq<string>, c: char)
    requires |parts| >= 1
    ensures Join([[x] + parts[0]] + parts[1..], c) == [x] + Join(parts, c)
  {
    var r := [[x] + parts[0]] + parts[1..];
    if |parts| > 1 {
      assert r[1..] == parts[1..];
    }
  }

  predicate Distinct<T(==)>(s: seq<T>) {
    forall i, j :: 0 <= i < j < |s| ==> s[i] != s[j]
  }

  /** `Set.add` on an insertion-ordered set. */
  function AddNew<T(==,!new)>(d: seq<T>, x: T): (r: seq<T>)
    ensures Distinct(d) ==> Distinct(r)
    ensures forall y :: y in r <==> y in d || y == x
  {
    if x in d then d else d + [x]
  }

  /** The position of the first occurrence of `x` in `s`. */
  function FirstIndex<T(==)>(s: seq<T>, x: T): (r: nat)
    requires x in s
    ensures r < |s| && s[r] == x && x !in s[..r]
  {
    if s[0] == x then 0 else 1 + FirstIndex(s[1..], x)
  }

  /** Appending to `s` leaves the first occurrences of its values where they were. */
  lemma {:induction false} FirstIndexAppend<T>(s: seq<T>, z: T, x: T)
    requires x in s
    ensures FirstIndex(s + [z], x) == FirstIndex(s, x)
  {
    if s[0] != x {
      assert (s + [z])[1..] == s[1..] + [z];
      FirstIndexAppend(s[1..], z, x);
    }
  }

  /** A value that is new at the end of `s + [z]` occurs first at the end. */
  lemma FirstIndexLast<T>(s: seq<T>, z: T)
    requires z !in s
    ensures FirstIndex(s + [z], z) == |s|
  {
    assert (s + [z])[..|s|] == s;
  }

  /** `Array.from(new Set(s))`: each value once, in the order of its first
      occurrence in `s`. */
  function Dedup<T(==,!new)>(s: seq<T>): (r: seq<T>)
    ensures Distinct(r)
    ensures forall x :: x in r <==> x in s
    ensures forall i, j {:trigger FirstIndex(s, r[i]), FirstIndex(s, r[j])} :: 0 <= i < j < |r| ==> FirstIndex(s, r[i]) < FirstIndex(s, r[j])
    ensures |r| <= |s|
  {
    if s == [] then []
    else
      var init := s[..|s| - 1];
      var last := s[|s| - 1];
      var d := Dedup(init);
      DedupStep(init, last, d);
      assert init + [last] == s;
      AddNew(d, last)
  }

  /** The step of `Dedup`: the previous result keeps its order in `init + [z]`,
      and a new `z` comes after all of it. */
  lemma DedupStep<T(!new)>(init: seq<T>, z: T, d: seq<T>)
    requires forall x :: x in d <==> x in init
    requires forall i, j :: 0 <= i < j < |d| ==> FirstIndex(init, d[i]) < FirstIndex(init, d[j])
    ensures var r := AddNew(d, z);
            forall i, j :: 0 <= i < j < |r| ==> FirstIndex(init + [z], r[i]) < FirstIndex(init + [z], r[j])
  {
    var s := init + [z];
    forall i | 0 <= i < |d|
      ensures FirstIndex(s, d[i]) == FirstIndex(init, d[i]) < |init|
    {
      FirstIndexAppend(init, z, d[i]);
    }
    if z !in init {
      FirstIndexLast(init, z);
      assert AddNew(d, z)[|d|] == z;
    }
  }

  lemma {:induction false} DedupDistinct<T(!new)>(s: seq<T>)
    requires Distinct(s)
    ensures Dedup(s) == s
  {
    if s != [] {
      var init := s[..|s| - 1];
      DedupDistinct(init);
      assert s[|s| - 1] !in init;
      assert init + [s[|s| - 1]] == s;
    }
  }
  /** `s.filter(entry => entry !== x)`. */
  function Without<T(==,!new)>(s: seq<T>, x: T): (r: seq<T>)
    ensures x !in r
    ensures forall y :: y != x ==> (y in r <==> y in s)
    ensures |r| <= |s|
  {
    if s == [] then []
    else (if s[0] == x then [] else [s[0]]) + Without(s[1..], x)
  }

  /** `filter` keeps the order of the values it keeps: filtering a
      concatenation filters each part. */
  lemma {:induction false} WithoutAppend<T(!new)>(a: seq<T>, b: seq<T>, x: T)
    ensures Without(a + b, x) == Without(a, x) + Without(b, x)
  {
    if a != [] {
      assert (a + b)[0] == a[0];
      assert (a + b)[1..] == a[1..] + b;
      WithoutAppend(a[1..], b, x);
    } else {
      assert a + b == b;
    }
  }

  /** On one value, `filter` keeps it exactly when it differs from `x`. */
  lemma WithoutOne<T(!new)>(y: T, x: T)
    ensures Without([y], x) == if y == x then [] else [y]
  {
  }

  /** On distinct values, filtering one out removes exactly its position. */
  lemma {:induction false} WithoutDistinct<T(!new)>(s: seq<T>, i: nat)
    requires Distinct(s) && i < |s|
    ensures Without(s, s[i]) == s[..i] + s[i + 1..]
  {
    if i == 0 {
      WithoutAbsent(s[1..], s[0]);
    } else {
      WithoutDistinct(s[1..], i - 1);
      assert s[1..][i - 1] == s[i];
      assert s[1..][..i - 1] == s[1..i];
      assert s[1..][i..] == s[i + 1..];
      assert s[..i] == [s[0]] + s[1..i];
    }
  }

  lemma {:induction false} WithoutAbsent<T(!new)>(s: seq<T>, x: T)
    requires x !in s
    ensures Without(s, x) == s
  {
    if s != [] {
      WithoutAbsent(s[1..], x);
    }
  }

  /** Filtering a value out of distinct values keeps them distinct. */
  lemma WithoutKeepsDistinct<T(!new)>(s: seq<T>, x: T)
    requires Distinct(s)
    ensures Distinct(Without(s, x))
  {
    if x in s {
      var i :| 0 <= i < |s| && s[i] == x;
      WithoutDistinct(s, i);
    } else {
      WithoutAbsent(s, x);
    }
  }
}
