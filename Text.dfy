/**
 * The two JavaScript string operations the route handlers rely on:
 * `String.prototype.trim` and `String.prototype.split(",")`, together with
 * `Array.prototype.join(",")`, the inverse of the split.
 */
module Text {

  /** ECMAScript WhiteSpace and LineTerminator code points: what `trim` removes. */
  predicate IsSpace(c: char) {
    || c == '\t' || c == '\n' || c == '\U{B}' || c == '\U{C}' || c == '\r'
    || c == ' ' || c == '\U{A0}' || c == '\U{1680}'
    || ('\U{2000}' <= c <= '\U{200A}')
    || c == '\U{2028}' || c == '\U{2029}' || c == '\U{202F}' || c == '\U{205F}'
    || c == '\U{3000}' || c == '\U{FEFF}'
  }

  /** Every character of `s` is white space (so `s.trim()` is the empty string). */
  predicate IsBlank(s: string) {
    forall k :: 0 <= k < |s| ==> IsSpace(s[k])
  }

  /** `s` holds a character that is not white space. */
  predicate HasText(s: string) {
    s != [] && (!IsSpace(s[0]) || HasText(s[1..]))
  }

  lemma {:induction false} HasTextIsNotBlank(s: string)
    ensures HasText(s) <==> !IsBlank(s)
  {
    if s != [] {
      HasTextIsNotBlank(s[1..]);
      assert forall k :: 1 <= k < |s| ==> s[k] == s[1..][k - 1];
    }
  }

  /** `s` neither starts nor ends with white space. */
  predicate IsTrimmed(s: string) {
    s != [] ==> !IsSpace(s[0]) && !IsSpace(s[|s| - 1])
  }

  /** `s` holds no separator. */
  predicate CommaFree(s: string) {
    forall k :: 0 <= k < |s| ==> s[k] != ','
  }

  /** Drops the leading white space: the result is a suffix of `s`. */
  function TrimStart(s: string): (r: string)
    ensures |r| <= |s| && r == s[|s| - |r|..]
    ensures IsBlank(s[..|s| - |r|])
    ensures r != [] ==> !IsSpace(r[0])
  {
    if s != [] && IsSpace(s[0]) then
      var r := TrimStart(s[1..]);
      assert s[..|s| - |r|] == [s[0]] + s[1..][..|s| - 1 - |r|];
      r
    else
      assert s[..0] == [];
      s
  }

  /** Drops the trailing white space: the result is a prefix of `s`. */
  function TrimEnd(s: string): (r: string)
    ensures |r| <= |s| && r == s[..|r|]
    ensures IsBlank(s[|r|..])
    ensures r != [] ==> !IsSpace(r[|r| - 1])
  {
    if s != [] && IsSpace(s[|s| - 1]) then TrimEnd(s[..|s| - 1]) else s
  }

  /** JavaScript `s.trim()`: drop the leading white space, then the trailing. */
  function Trim(s: string): (r: string)
    ensures IsTrimmed(r)
    ensures r == [] <==> IsBlank(s)
  {
    if s != [] && IsSpace(s[0]) then
      var r := Trim(s[1..]);
      assert forall k :: 1 <= k < |s| ==> s[k] == s[1..][k - 1];
      r
    else
      var r := TrimEnd(s);
      assert s[0..] == s;
      r
  }

  /** Trim is TrimStart followed by TrimEnd. */
  lemma {:induction false} TrimStartEnd(s: string)
    ensures Trim(s) == TrimEnd(TrimStart(s))
  {
    if s != [] && IsSpace(s[0]) {
      TrimStartEnd(s[1..]);
    }
  }

  /** The trimmed string is a contiguous piece of `s` and only white space was cut from either end. */
  lemma TrimIsSlice(s: string)
    ensures exists i, j :: 0 <= i <= j <= |s| && Trim(s) == s[i..j] && IsBlank(s[..i]) && IsBlank(s[j..])
  {
    TrimStartEnd(s);
    var t := TrimStart(s);
    var i := |s| - |t|;
    var n := |TrimEnd(t)|;
    SuffixSlices(s, i, n);
    assert Trim(s) == s[i..i + n] && IsBlank(s[..i]) && IsBlank(s[i + n..]);
  }

  /** Cutting a suffix of `s` at `n` is cutting `s` itself at `i + n`. */
  lemma SuffixSlices(s: string, i: nat, n: nat)
    requires i + n <= |s|
    ensures s[i..][..n] == s[i..i + n] && s[i..][n..] == s[i + n..]
  {
  }

  /** Trimming is idempotent: a trimmed string is its own trim. */
  lemma TrimTrimmed(s: string)
    requires IsTrimmed(s)
    ensures Trim(s) == s
  {
    TrimStartEnd(s);
    assert TrimStart(s) == s;
  }

  lemma TrimIdempotent(s: string)
    ensures Trim(Trim(s)) == Trim(s)
  {
    TrimTrimmed(Trim(s));
  }

  /** Trimming never introduces a separator. */
  lemma TrimCommaFree(s: string)
    requires CommaFree(s)
    ensures CommaFree(Trim(s))
  {
    var t := TrimStart(s);
    TrimStartEnd(s);
    SliceCommaFree(s, |s| - |t|, |s|);
    SliceCommaFree(t, 0, |TrimEnd(t)|);
  }

  /** A piece of a separator-free string is separator-free. */
  lemma SliceCommaFree(s: string, i: nat, j: nat)
    requires i <= j <= |s| && CommaFree(s)
    ensures CommaFree(s[i..j])
  {
    assert forall k :: 0 <= k < j - i ==> s[i..j][k] == s[i + k];
  }

  /** JavaScript `s.split(",")`: never empty, and `"".split(",")` is `[""]`. */
  function Split(s: string): (r: seq<string>)
    ensures |r| >= 1
    ensures forall i :: 0 <= i < |r| ==> CommaFree(r[i])
  {
    if s == [] then [""]
    else
      var rest := Split(s[1..]);
      if s[0] == ',' then [""] + rest
      else [[s[0]] + rest[0]] + rest[1..]
  }

  /** JavaScript `pieces.join(",")`. */
  function Join(pieces: seq<string>): (r: string)
    decreases |pieces|
  {
    if pieces == [] then ""
    else if |pieces| == 1 then pieces[0]
    else pieces[0] + "," + Join(pieces[1..])
  }

  /** Splitting and re-joining gives back the original string. */
  lemma {:induction false} JoinSplit(s: string)
    ensures Join(Split(s)) == s
    decreases |s|
  {
    if s != [] {
      var rest := Split(s[1..]);
      JoinSplit(s[1..]);
      if s[0] == ',' {
        assert Split(s) == [""] + rest;
        assert Split(s)[1..] == rest;
      } else {
        var r := Split(s);
        assert r == [[s[0]] + rest[0]] + rest[1..];
        if |rest| == 1 {
          assert Join(r) == [s[0]] + rest[0];
        } else {
          assert r[1..] == rest[1..];
          assert Join(r) == [s[0]] + rest[0] + "," + Join(rest[1..]);
        }
        assert Join(r) == [s[0]] + Join(rest);
        assert s == [s[0]] + s[1..];
      }
    }
  }

  /** Prepending a separator-free piece to a string extends its first split piece. */
  lemma {:induction false} SplitPrefix(p: string, s: string)
    requires CommaFree(p)
    ensures Split(p + s) == [p + Split(s)[0]] + Split(s)[1..]
    decreases |p|
  {
    if p != [] {
      assert (p + s)[1..] == p[1..] + s;
      assert (p + s)[0] == p[0];
      SplitPrefix(p[1..], s);
      assert [p[0]] + (p[1..] + Split(s)[0]) == p + Split(s)[0];
    } else {
      assert p + s == s;
      assert p + Split(s)[0] == Split(s)[0];
      assert Split(s) == [Split(s)[0]] + Split(s)[1..];
    }
  }

  /** Joining separator-free pieces and splitting again gives back the pieces. */
  lemma {:induction false} SplitJoin(pieces: seq<string>)
    requires |pieces| >= 1
    requires forall i :: 0 <= i < |pieces| ==> CommaFree(pieces[i])
    ensures Split(Join(pieces)) == pieces
    decreases |pieces|
  {
    if |pieces| == 1 {
      SplitPrefix(pieces[0], "");
      assert pieces[0] + "" == pieces[0];
    } else {
      var tail := Join(pieces[1..]);
      SplitJoin(pieces[1..]);
      assert Join(pieces) == pieces[0] + ("," + tail);
      SplitPrefix(pieces[0], "," + tail);
      assert ("," + tail)[1..] == tail;
      assert Split("," + tail) == [""] + pieces[1..];
      assert pieces[0] + "" == pieces[0];
    }
  }
}
