/** White space and trimming, and the characters a string is made of. */
module Strings {

  /** Unicode white space. */
  predicate IsSpace(c: char) {
    c in {'\t', '\n', '\U{000B}', '\U{000C}', '\r', ' ', '\U{0085}', '\U{00A0}', '\U{1680}', '\U{2028}', '\U{2029}',
          '\U{202F}', '\U{205F}', '\U{3000}'} || '\U{2000}' <= c <= '\U{200A}'
  }

  /** White space by code point. */
  lemma SpacesAre(c: char)
    ensures IsSpace(c) <==>
      var n := c as int;
      || 9 <= n <= 13 || 0x2000 <= n <= 0x200A
      || n in {32, 0x85, 0xA0, 0x1680, 0x2028, 0x2029, 0x202F, 0x205F, 0x3000}
  {}

  function TrimLeft(s: string): string { if s != "" && IsSpace(s[0]) then TrimLeft(s[1..]) else s }

  function TrimRight(s: string): string {
    if s != "" && IsSpace(s[|s| - 1]) then TrimRight(s[..|s| - 1]) else s
  }

  function Trim(s: string): string { TrimRight(TrimLeft(s)) }

  predicate OnlySpace(s: string) { forall i :: 0 <= i < |s| ==> IsSpace(s[i]) }

  /** Trimming takes white space off both ends and nothing else. */
  lemma TrimTakesSpace(s: string) returns (front: string, back: string)
    ensures s == front + Trim(s) + back && OnlySpace(front) && OnlySpace(back)
  {
    front := LeftTaken(s);
    back := RightTaken(TrimLeft(s));
  }

  lemma {:induction false} LeftTaken(s: string) returns (front: string)
    ensures s == front + TrimLeft(s) && OnlySpace(front)
    decreases |s|
  {
    if s != "" && IsSpace(s[0]) {
      front := LeftTaken(s[1..]);
      front := [s[0]] + front;
    } else {
      front := "";
    }
  }

  lemma {:induction false} RightTaken(s: string) returns (back: string)
    ensures s == TrimRight(s) + back && OnlySpace(back)
    decreases |s|
  {
    if s != "" && IsSpace(s[|s| - 1]) {
      back := RightTaken(s[..|s| - 1]);
      back := back + [s[|s| - 1]];
    } else {
      back := "";
    }
  }

  /** What is left neither starts nor ends with white space. */
  predicate NoSpaceEnds(s: string) { s != "" ==> !IsSpace(s[0]) && !IsSpace(s[|s| - 1]) }

  lemma {:induction false} LeftOf(front: string, t: string)
    requires OnlySpace(front) && (t != "" ==> !IsSpace(t[0]))
    ensures TrimLeft(front + t) == t
    decreases |front|
  {
    hide IsSpace;
    if front == "" {
      assert front + t == t;
    } else {
      LeftOf(front[1..], t);
      assert (front + t)[1..] == front[1..] + t && (front + t)[0] == front[0];
    }
  }

  lemma {:induction false} RightOf(t: string, back: string)
    requires OnlySpace(back) && (t != "" ==> !IsSpace(t[|t| - 1]))
    ensures TrimRight(t + back) == t
    decreases |back|
  {
    hide IsSpace;
    if back == "" {
      assert t + back == t;
    } else {
      var n := |back| - 1;
      RightOf(t, back[..n]);
      assert (t + back)[..|t + back| - 1] == t + back[..n] && (t + back)[|t + back| - 1] == back[n];
    }
  }

  /** Trimming is taking all white space off both ends. */
  lemma TrimIs(front: string, t: string, back: string)
    requires OnlySpace(front) && OnlySpace(back) && NoSpaceEnds(t)
    ensures Trim(front + t + back) == t
  {
    hide IsSpace;
    if t == "" {
      LeftOf(front + back, "");
      assert front + t + back == front + back + "";
    } else {
      LeftOf(front, t + back);
      RightOf(t, back);
      assert front + t + back == front + (t + back);
    }
  }

  lemma {:induction false} LeftStops(s: string)
    ensures TrimLeft(s) != "" ==> !IsSpace(TrimLeft(s)[0])
    decreases |s|
  {
    hide IsSpace;
    if s != "" && IsSpace(s[0]) { LeftStops(s[1..]); }
  }

  lemma {:induction false} RightStops(s: string)
    ensures TrimRight(s) <= s && (TrimRight(s) != "" ==> !IsSpace(TrimRight(s)[|TrimRight(s)| - 1]))
    decreases |s|
  {
    hide IsSpace;
    if s != "" && IsSpace(s[|s| - 1]) { RightStops(s[..|s| - 1]); }
  }

  lemma TrimmedEnds(s: string)
    ensures NoSpaceEnds(Trim(s))
  {
    hide IsSpace;
    LeftStops(s);
    RightStops(TrimLeft(s));
  }

  /** White space around a string does not show after trimming. */
  lemma TrimPadded(front: string, s: string, back: string)
    requires OnlySpace(front) && OnlySpace(back)
    ensures Trim(front + s + back) == Trim(s)
  {
    hide IsSpace, Trim;
    var f, b := TrimTakesSpace(s);
    TrimmedEnds(s);
    TrimIs(front + f, Trim(s), b + back);
    assert front + s + back == (front + f) + Trim(s) + (b + back);
  }

  predicate QuoteFree(s: string) { forall i :: 0 <= i < |s| ==> s[i] != '\"' }

  /** A string whose trimmed text has no double quote has none at all. */
  lemma TrimmedQuoteFree(s: string)
    requires QuoteFree(Trim(s))
    ensures QuoteFree(s)
  {
    var front, back := TrimTakesSpace(s);
  }
}
