/** The tag-chip field of the page's add dialog. */
module TagEditor {
  import opened Strings

  /** The tag a comma-separated piece stands for: trimmed, without one
      leading `#`, trimmed again. */
  function TagOf(piece: string): (r: string)
    ensures IsTrimmed(r)
  {
    Trim(StripLeading(Trim(piece), '#'))
  }

  /** The tags after committing the pieces one by one: a tag is appended
      when it is non-empty and not yet present. */
  function AddTags(tags: seq<string>, pieces: seq<string>): (r: seq<string>)
    ensures |tags| <= |r| && r[..|tags|] == tags
    ensures forall k :: |tags| <= k < |r| ==> r[k] != [] && IsTrimmed(r[k])
  {
    if pieces == [] then tags
    else AddTag(AddTags(tags, pieces[..|pieces| - 1]), pieces[|pieces| - 1])
  }

  /** Committing one piece: its tag is appended when non-empty and new. */
  function AddTag(tags: seq<string>, piece: string): (r: seq<string>)
    ensures r == tags || (r == tags + [TagOf(piece)] && TagOf(piece) != [] && TagOf(piece) !in tags)
    ensures r == tags <==> TagOf(piece) == [] || TagOf(piece) in tags
  {
    var t := TagOf(piece);
    if t == [] || t in tags then tags else tags + [t]
  }

  /** Distinct tags stay distinct. */
  lemma {:induction false} AddTagsDistinct(tags: seq<string>, pieces: seq<string>)
    requires Distinct(tags)
    ensures Distinct(AddTags(tags, pieces))
  {
    if pieces != [] {
      AddTagsDistinct(tags, pieces[..|pieces| - 1]);
    }
  }

  /** A tag is present afterwards exactly when it was before or some piece stands for it. */
  lemma {:induction false} AddTagsMembers(tags: seq<string>, pieces: seq<string>, x: string)
    ensures x in AddTags(tags, pieces)
            <==> x in tags || (x != [] && exists p :: p in pieces && TagOf(p) == x)
  {
    if pieces != [] {
      var init := pieces[..|pieces| - 1];
      AddTagsMembers(tags, init, x);
      assert forall p :: p in pieces <==> p in init || p == pieces[|pieces| - 1];
    }
  }

  class TagInput {
    var tags: seq<string>
    /** The text typed but not yet committed. */
    var input: string
    /** The lists handed to `onChange`, oldest first. */
    var notified: seq<seq<string>>

    constructor(initialTags: seq<string>)
      ensures tags == initialTags && input == [] && notified == []
    {
      tags := initialTags;
      input := [];
      notified := [];
    }

    function GetTags(): seq<string>
      reads this
    {
      tags
    }

    method SetTags(newTags: seq<string>)
      modifies this
      ensures tags == newTags && input == old(input) && notified == old(notified) + [newTags]
    {
      tags := newTags;
      notified := notified + [tags];
    }

    /** `commitPendingTag`: always succeeds. Blank input is left alone;
        otherwise the input is cleared, each comma-separated piece is
        committed, and `onChange` fires once if anything was added. */
    method CommitPendingTag() returns (ok: bool)
      modifies this
      ensures ok
      ensures AllWhite(old(input)) ==> tags == old(tags) && input == old(input) && notified == old(notified)
      ensures !AllWhite(old(input)) ==>
                && input == []
                && tags == AddTags(old(tags), Tokens(Trim(old(input)), Comma))
                && notified == old(notified) + (if tags != old(tags) then [tags] else [])
    {
      var pending := Trim(input);
      TrimEmptyIffBlank(input);
      if pending == [] {
        return true;
      }
      input := [];
      var pieces := Tokens(pending, Comma);
      var added, changed := CommitPieces(tags, pieces);
      tags := added;
      if changed {
        notified := notified + [tags];
      }
      return true;
    }

    /** The loop of `commitPendingTag` over the comma-separated pieces; it
        reports whether any tag was added. */
    static method CommitPieces(start: seq<string>, pieces: seq<string>) returns (tags: seq<string>, changed: bool)
      ensures tags == AddTags(start, pieces)
      ensures changed <==> tags != start
    {
      tags := start;
      changed := false;
      var i := 0;
      while i < |pieces|
        invariant 0 <= i <= |pieces|
        invariant tags == AddTags(start, pieces[..i])
        invariant changed <==> |tags| > |start|
      {
        assert pieces[..i + 1][..i] == pieces[..i];
        var next := CommitPiece(tags, pieces[i]);
        if |next| > |tags| {
          changed := true;
        }
        tags := next;
        i := i + 1;
      }
      assert pieces[..i] == pieces;
    }

    /** One turn of the loop: the piece trimmed, a leading `#` dropped,
        trimmed again, and appended when non-empty and new. */
    static method CommitPiece(tags: seq<string>, piece: string) returns (r: seq<string>)
      ensures r == AddTag(tags, piece)
    {
      r := tags;
      var raw := Trim(piece);
      if raw != [] {
        var normalized := Trim(StripLeading(raw, '#'));
        if normalized != [] && normalized !in tags {
          r := tags + [normalized];
        }
      } else {
        assert StripLeading(raw, '#') == [];
        TrimFixed([]);
      }
    }

    /** The chip's remove button: drops that tag value and notifies. */
    method RemoveTag(tag: string)
      modifies this
      ensures tags == Without(old(tags), tag)
      ensures input == old(input) && notified == old(notified) + [tags]
    {
      tags := Without(tags, tag);
      notified := notified + [tags];
    }
  }
}
