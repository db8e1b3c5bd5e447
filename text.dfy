/** The blank-text test of the add-event form: `String.prototype.trim`
    removes leading and trailing white space and line terminators, and an
    empty result is falsy. */
module Text {

  /** The characters `trim` removes: the ECMAScript WhiteSpace set (tab,
      vertical tab, form feed, space, no-break space, zero-width no-break
      space and the Unicode space separators) and the LineTerminator set
      (line feed, carriage return, line and paragraph separators). */
  predicate IsTrimmable(c: char) {
    c == '\t' || c == '\n' || c == '\U{000B}' || c == '\U{000C}' || c == '\r'
    || c == ' ' || c == '\U{00A0}' || c == '\U{1680}'
    || ('\U{2000}' <= c <= '\U{200A}')
    || c == '\U{2028}' || c == '\U{2029}' || c == '\U{202F}' || c == '\U{205F}'
    || c == '\U{3000}' || c == '\U{FEFF}'
  }

  /** Every character of `s` is trimmable. */
  predicate IsBlank(s: string) {
    forall i :: 0 <= i < |s| ==> IsTrimmable(s[i])
  }

  /** `s` without its leading trimmable characters. */
  function TrimStart(s: string): (r: string)
    ensures |r| <= |s| && r == s[|s| - |r|..]
    ensures IsBlank(s[..|s| - |r|])
    ensures r == [] || !IsTrimmable(r[0])
  {
    if s != [] && IsTrimmable(s[0]) then TrimStart(s[1..]) else s
  }

  /** `s` without its trailing trimmable characters. */
  function TrimEnd(s: string): (r: string)
    ensures |r| <= |s| && r == s[..|r|]
    ensures IsBlank(s[|r|..])
    ensures r == [] || !IsTrimmable(r[|r| - 1])
  {
    if s != [] && IsTrimmable(s[|s| - 1]) then TrimEnd(s[..|s| - 1]) else s
  }

  /** `String.prototype.trim`. The result is empty exactly when the text is
      empty or made only of white space, so the add-event guard `!text.trim()`
      rejects precisely the blank drafts; otherwise it neither starts nor
      ends with white space. `TrimRemovesBlankEnds` adds that it is the input
      with its blank ends cut off. */
  function Trim(s: string): (r: string)
    ensures r == [] <==> IsBlank(s)
    ensures r == [] || (!IsTrimmable(r[0]) && !IsTrimmable(r[|r| - 1]))
  {
    var t := TrimStart(s);
    var r := TrimEnd(t);
    assert r == [] ==> IsBlank(t[0..]) && s == s[..|s| - |t|] + t;
    r
  }

  /** `r` is the part of `s` starting at index `i`, and everything before
      and after it is white space. */
  predicate BlankEndsAround(s: string, r: string, i: int) {
    0 <= i <= |s| - |r| && r == s[i..i + |r|] && IsBlank(s[..i]) && IsBlank(s[i + |r|..])
  }

  /** The trimmed text is a contiguous part of the input, and what lies
      before and after it is white space: `trim` removes the blank ends and
      nothing else. */
  lemma TrimRemovesBlankEnds(s: string)
    ensures exists i :: BlankEndsAround(s, Trim(s), i)
  {
    var t := TrimStart(s);
    var i := |s| - |t|;
    var r := TrimEnd(t);
    assert t == s[i..] && IsBlank(s[..i]);
    assert r == t[..|r|] && IsBlank(t[|r|..]);
    assert s[i..i + |r|] == t[..|r|];
    assert s[i + |r|..] == t[|r|..];
    assert Trim(s) == r;
    assert BlankEndsAround(s, Trim(s), i);
  }

  /** The blank drafts of the form: empty, spaces only, and a mix of tabs,
      line breaks and no-break spaces; a draft with a letter is not blank. */
  lemma BlankExamples()
    ensures IsBlank("") && IsBlank("   ") && IsBlank("\t\n\U{00A0} ")
    ensures !IsBlank(" a ")
  {
    assert " a "[1] == 'a';
  }
}
