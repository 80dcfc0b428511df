/** What String.prototype.trim takes for white space, and what it leaves. */
module WhiteSpace {

  /** The characters String.prototype.trim removes. */
  predicate IsSpace(c: char) {
    || '\t' <= c <= '\r' || c == ' ' || c == '\U{A0}' || c == '\U{1680}'
    || '\U{2000}' <= c <= '\U{200A}' || c == '\U{2028}' || c == '\U{2029}'
    || c == '\U{202F}' || c == '\U{205F}' || c == '\U{3000}' || c == '\U{FEFF}'
  }

  /** The 25 of them, by code point: the white space and the line terminators of ECMAScript. */
  lemma SpaceCharacters(c: char)
    ensures IsSpace(c) <==>
            c as int in {0x9, 0xA, 0xB, 0xC, 0xD, 0x20, 0xA0, 0x1680, 0x2000, 0x2001, 0x2002, 0x2003, 0x2004, 0x2005,
                         0x2006, 0x2007, 0x2008, 0x2009, 0x200A, 0x2028, 0x2029, 0x202F, 0x205F, 0x3000, 0xFEFF}
  {
  }

  predicate AllSpace(s: string) {
    forall i :: 0 <= i < |s| ==> IsSpace(s[i])
  }

  predicate Trimmed(s: string) {
    s == [] || (!IsSpace(s[0]) && !IsSpace(s[|s| - 1]))
  }

  /** String.prototype.trim. */
  function Trim(s: string): string {
    if s != [] && IsSpace(s[0]) then Trim(s[1..])
    else if s != [] && IsSpace(s[|s| - 1]) then Trim(s[..|s| - 1])
    else s
  }

  ghost predicate SpaceAround(s: string, pre: string, middle: string, post: string) {
    AllSpace(pre) && AllSpace(post) && s == pre + middle + post
  }

  lemma MoreSpace(c: char, s: string, pre: string, middle: string, post: string)
    requires IsSpace(c) && SpaceAround(s, pre, middle, post)
    ensures SpaceAround([c] + s, [c] + pre, middle, post)
    ensures SpaceAround(s + [c], pre, middle, post + [c])
  {
  }

  /** Trimming removes white space on both sides and nothing else. */
  lemma {:induction false} TrimRemovesOnlySpace(s: string) returns (pre: string, post: string)
    ensures SpaceAround(s, pre, Trim(s), post) && Trimmed(Trim(s))
  {
    if s != [] && IsSpace(s[0]) {
      var rest := s[1..];
      pre, post := TrimRemovesOnlySpace(rest);
      MoreSpace(s[0], rest, pre, Trim(rest), post);
      assert s == [s[0]] + rest;
      pre := [s[0]] + pre;
    } else if s != [] && IsSpace(s[|s| - 1]) {
      var rest := s[..|s| - 1];
      pre, post := TrimRemovesOnlySpace(rest);
      MoreSpace(s[|s| - 1], rest, pre, Trim(rest), post);
      assert s == rest + [s[|s| - 1]];
      post := post + [s[|s| - 1]];
    } else {
      pre, post := "", "";
    }
  }

  lemma {:induction false} TrimTwice(s: string)
    ensures Trim(Trim(s)) == Trim(s)
  {
    if s != [] && IsSpace(s[0]) {
      TrimTwice(s[1..]);
    } else if s != [] && IsSpace(s[|s| - 1]) {
      TrimTwice(s[..|s| - 1]);
    }
  }

  lemma BlankIffAllSpace(s: string)
    ensures Trim(s) == "" <==> AllSpace(s)
  {
    var pre, post := TrimRemovesOnlySpace(s);
    if AllSpace(s) && Trim(s) != "" {
      assert s[|pre|] == Trim(s)[0];
    }
  }
}
