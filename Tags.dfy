/**
 * Normalisation of the `tags` field of a request body. Create and update
 * use two different rules: create splits a string on commas, trims every
 * piece and drops the empty ones; update splits and trims but keeps empty
 * pieces, and throws when `tags` is neither an array nor a string.
 */
module Tags {
  import opened Text
  import opened Wrappers

  /** The shape of the `tags` value in a parsed JSON body. */
  datatype TagsField =
    | StringTags(text: string)        // typeof tags === "string"
    | ArrayTags(items: seq<string>)   // Array.isArray(tags)
    | OtherTags                       // absent, null, a number, a boolean or an object

  /** A tag as create stores it: non-empty, trimmed and free of separators. */
  predicate IsCleanTag(t: string) {
    t != [] && IsTrimmed(t) && CommaFree(t)
  }

  /** `a` is `b` with some elements left out, the rest kept in order. */
  predicate IsSubsequence<T(==)>(a: seq<T>, b: seq<T>)
    decreases |b|
  {
    if a == [] then true
    else if b == [] then false
    else if a[0] == b[0] then IsSubsequence(a[1..], b[1..])
    else IsSubsequence(a, b[1..])
  }

  /** `pieces.map((tag) => tag.trim())`. */
  function TrimAll(pieces: seq<string>): (r: seq<string>)
    ensures |r| == |pieces|
    ensures forall i :: 0 <= i < |r| ==> r[i] == Trim(pieces[i])
  {
    if pieces == [] then [] else [Trim(pieces[0])] + TrimAll(pieces[1..])
  }

  /**
   * `pieces.filter(Boolean)`: the empty strings are gone, every other
   * element stays, as often as it occurred and in its original order.
   */
  function DropEmpty(pieces: seq<string>): (r: seq<string>)
    ensures forall i :: 0 <= i < |r| ==> r[i] != []
    ensures forall t :: t != [] ==> multiset(r)[t] == multiset(pieces)[t]
    ensures IsSubsequence(r, pieces)
  {
    if pieces == [] then []
    else
      var rest := DropEmpty(pieces[1..]);
      assert pieces == [pieces[0]] + pieces[1..];
      if pieces[0] == [] then rest
      else
        var r := [pieces[0]] + rest;
        assert r[1..] == rest;
        r
  }

  /** The create rule for a string: `tags.split(",").map(trim).filter(Boolean)`. */
  function SplitTags(s: string): (r: seq<string>)
    ensures forall i :: 0 <= i < |r| ==> IsCleanTag(r[i])
    ensures forall t :: t != [] ==> multiset(r)[t] == multiset(TrimAll(Split(s)))[t]
    ensures IsSubsequence(r, TrimAll(Split(s)))
  {
    var trimmed := TrimAll(Split(s));
    TrimAllClean(Split(s));
    var r := DropEmpty(trimmed);
    forall i | 0 <= i < |r| ensures IsCleanTag(r[i]) {
      assert r[i] in multiset(r);
      assert r[i] in multiset(trimmed);
      var m :| 0 <= m < |trimmed| && trimmed[m] == r[i];
    }
    r
  }

  /** The update rule for a string: `tags.split(",").map(trim)`, empty pieces kept. */
  function SplitTagsKeepEmpty(s: string): (r: seq<string>)
    ensures |r| == |Split(s)| >= 1
    ensures forall i :: 0 <= i < |r| ==> r[i] == Trim(Split(s)[i])
    ensures forall i :: 0 <= i < |r| ==> IsTrimmed(r[i]) && CommaFree(r[i])
  {
    TrimAllClean(Split(s));
    TrimAll(Split(s))
  }

  /** Trimming separator-free pieces gives trimmed, separator-free pieces. */
  lemma TrimAllClean(pieces: seq<string>)
    requires forall i :: 0 <= i < |pieces| ==> CommaFree(pieces[i])
    ensures forall i :: 0 <= i < |pieces| ==> IsTrimmed(TrimAll(pieces)[i]) && CommaFree(TrimAll(pieces)[i])
  {
    var r := TrimAll(pieces);
    forall i | 0 <= i < |r| ensures IsTrimmed(r[i]) && CommaFree(r[i]) {
      TrimCommaFree(pieces[i]);
    }
  }

  /** Lines 70-78: the tags a created idea is stored with. */
  function CreateTags(tags: TagsField): (r: seq<string>)
    ensures tags.StringTags? ==> forall i :: 0 <= i < |r| ==> IsCleanTag(r[i])
    ensures tags.ArrayTags? ==> r == tags.items
    ensures tags.OtherTags? ==> r == []
  {
    match tags
    case StringTags(s) => SplitTags(s)
    case ArrayTags(items) => items
    case OtherTags => []
  }

  /** Lines 140-142: the tags an update stores, or None when `tags.split` throws. */
  function UpdateTags(tags: TagsField): (r: Option<seq<string>>)
    ensures r.None? <==> tags.OtherTags?
    ensures tags.ArrayTags? ==> r == Some(tags.items)
    ensures tags.StringTags? ==> |r.value| == |Split(tags.text)|
  {
    match tags
    case StringTags(s) => Some(SplitTagsKeepEmpty(s))
    case ArrayTags(items) => Some(items)
    case OtherTags => None
  }

  lemma {:induction false} TrimAllTrimmed(pieces: seq<string>)
    requires forall i :: 0 <= i < |pieces| ==> IsTrimmed(pieces[i])
    ensures TrimAll(pieces) == pieces
  {
    forall i | 0 <= i < |pieces| ensures TrimAll(pieces)[i] == pieces[i] {
      TrimTrimmed(pieces[i]);
    }
  }

  lemma {:induction false} DropEmptyNonEmpty(pieces: seq<string>)
    requires forall i :: 0 <= i < |pieces| ==> pieces[i] != []
    ensures DropEmpty(pieces) == pieces
    decreases |pieces|
  {
    if pieces != [] {
      DropEmptyNonEmpty(pieces[1..]);
    }
  }

  /** A list of clean tags survives being joined into one string and split again by create. */
  lemma CreateTagsRoundTrip(tags: seq<string>)
    requires forall i :: 0 <= i < |tags| ==> IsCleanTag(tags[i])
    ensures CreateTags(StringTags(Join(tags))) == tags
  {
    if tags == [] {
      assert Split("") == [""];
      assert TrimAll([""]) == [""];
    } else {
      SplitJoin(tags);
      TrimAllTrimmed(tags);
      DropEmptyNonEmpty(tags);
    }
  }

  /** Update keeps every piece, empty or not: trimmed, separator-free lists round-trip through a string. */
  lemma UpdateTagsRoundTrip(tags: seq<string>)
    requires |tags| >= 1
    requires forall i :: 0 <= i < |tags| ==> IsTrimmed(tags[i]) && CommaFree(tags[i])
    ensures UpdateTags(StringTags(Join(tags))) == Some(tags)
  {
    SplitJoin(tags);
    TrimAllTrimmed(tags);
  }

  /** The pieces create stores are the non-empty ones among those update stores, in the same order. */
  lemma CreateFiltersUpdate(s: string)
    ensures CreateTags(StringTags(s)) == DropEmpty(UpdateTags(StringTags(s)).value)
  {
  }

  lemma SplitExample()
    ensures Split("a, ,b") == ["a", " ", "b"]
  {
    assert "b"[1..] == "" && ['b'] + "" == "b";
    assert Split("b") == ["b"];
    assert Split(",b") == ["", "b"];
    assert " ,b"[1..] == ",b" && [' '] + "" == " ";
    assert Split(" ,b") == [" ", "b"];
    assert ", ,b"[1..] == " ,b";
    assert Split(", ,b") == ["", " ", "b"];
    assert "a, ,b"[1..] == ", ,b" && ['a'] + "" == "a";
  }

  lemma TrimExample()
    ensures TrimAll(["a", " ", "b"]) == ["a", "", "b"]
  {
    assert Trim(" ") == "" by { assert IsBlank(" "); }
    TrimTrimmed("a");
    TrimTrimmed("b");
  }

  /** Create drops the blank piece of `"a, ,b"`... */
  lemma CreateEmptyPieceExample()
    ensures CreateTags(StringTags("a, ,b")) == ["a", "b"]
  {
    var pieces := TrimAll(Split("a, ,b"));
    assert pieces == ["a", "", "b"] by {
      SplitExample();
      TrimExample();
    }
    assert SplitTags("a, ,b") == DropEmpty(pieces);
    DropEmptyExample();
  }

  /** ... and update keeps it as an empty tag. */
  lemma UpdateEmptyPieceExample()
    ensures UpdateTags(StringTags("a, ,b")) == Some(["a", "", "b"])
  {
    SplitExample();
    TrimExample();
  }

  lemma DropEmptyExample()
    ensures DropEmpty(["a", "", "b"]) == ["a", "b"]
  {
    var kept: seq<string> := ["a", "", "b"];
    assert kept[1..] == ["", "b"] && kept[1..][1..] == ["b"] && kept[1..][1..][1..] == [];
    assert DropEmpty(["b"]) == ["b"];
    assert DropEmpty(["", "b"]) == ["b"];
  }
}
