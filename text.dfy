/** The three string operations of Python's `str` the analysed program relies on:
    `strip()`, `lower()` and `title()`. */
module Text {

  /** Python's `str.isspace` for one character: the ASCII controls TAB..CR,
      the separators FS..US, SPACE, NEL, NBSP and the Unicode space characters. */
  predicate IsSpace(c: char) {
    var n := c as int;
    (9 <= n <= 13) || (28 <= n <= 32) || n == 0x85 || n == 0xA0 || n == 0x1680 ||
    (0x2000 <= n <= 0x200A) || n == 0x2028 || n == 0x2029 || n == 0x202F ||
    n == 0x205F || n == 0x3000
  }

  /** Leading white space removed. */
  function StripLeft(s: string): (r: string)
    ensures |r| <= |s| && r == s[|s| - |r|..]
    ensures r == [] || !IsSpace(r[0])
    ensures forall k :: 0 <= k < |s| - |r| ==> IsSpace(s[k])
  {
    if s != [] && IsSpace(s[0]) then StripLeft(s[1..]) else s
  }

  /** Trailing white space removed. */
  function StripRight(s: string): (r: string)
    ensures |r| <= |s| && r == s[..|r|]
    ensures r == [] || !IsSpace(r[|r| - 1])
    ensures forall k :: |r| <= k < |s| ==> IsSpace(s[k])
  {
    if s != [] && IsSpace(s[|s| - 1]) then StripRight(s[..|s| - 1]) else s
  }

  /** `s.strip()`: white space removed at both ends (StripPadded says which
      slice remains). */
  function Strip(s: string): (r: string)
    ensures |r| <= |s|
    ensures r == [] || (!IsSpace(r[0]) && !IsSpace(r[|r| - 1]))
  {
    StripRight(StripLeft(s))
  }

  /** A string made only of white space is stripped to nothing, and stripping
      a string that already has no white space at either end changes nothing. */
  lemma {:induction false} StripPadded(p: string, t: string, q: string)
    requires forall k :: 0 <= k < |p| ==> IsSpace(p[k])
    requires forall k :: 0 <= k < |q| ==> IsSpace(q[k])
    requires t == [] || (!IsSpace(t[0]) && !IsSpace(t[|t| - 1]))
    ensures Strip(p + t + q) == t
  {
    var s := p + t + q;
    var l := StripLeft(s);
    if t == [] {
      assert forall k :: 0 <= k < |s| ==> IsSpace(s[k]);
      assert l == [];
    } else {
      assert s[|p|] == t[0];
      assert |l| == |t| + |q|;
      assert l == t + q;
      var r := StripRight(l);
      assert l[|t| - 1] == t[|t| - 1];
      assert |r| == |t|;
      assert r == t;
    }
  }

  /** Python's `lower()` restricted to the characters whose lower-case form is
      ASCII: the letters A-Z and U+212A KELVIN SIGN (which lowers to `k`). */
  function LowerChar(c: char): char {
    if 'A' <= c <= 'Z' then (c as int + 32) as char
    else if c as int == 0x212A then 'k'
    else c
  }

  /** `s.lower()`: the same length, no capital letter A-Z or KELVIN SIGN
      left, each of those replaced by its small letter, everything else kept. */
  function Lower(s: string): (r: string)
    ensures |r| == |s|
    ensures forall k :: 0 <= k < |r| ==> !('A' <= r[k] <= 'Z') && r[k] as int != 0x212A
    ensures forall k :: 0 <= k < |s| && 'A' <= s[k] <= 'Z' ==> r[k] as int == s[k] as int + 32
    ensures forall k :: 0 <= k < |s| && s[k] as int == 0x212A ==> r[k] == 'k'
    ensures forall k :: 0 <= k < |s| && !('A' <= s[k] <= 'Z') && s[k] as int != 0x212A ==>
      r[k] == s[k]
  {
    seq(|s|, k requires 0 <= k < |s| => LowerChar(s[k]))
  }

  function UpperChar(c: char): char {
    if 'a' <= c <= 'z' then (c as int - 32) as char else c
  }

  predicate IsLetter(c: char) {
    ('a' <= c <= 'z') || ('A' <= c <= 'Z')
  }

  /** What `title()` makes of one character, given whether a letter precedes it. */
  function TitleChar(c: char, afterLetter: bool): char {
    if !IsLetter(c) then c else if afterLetter then LowerChar(c) else UpperChar(c)
  }

  /** `s.title()` on ASCII text: a letter that follows a letter is lowered,
      any other letter is raised, and other characters are kept. */
  function Title(s: string): (r: string)
    ensures |r| == |s|
    ensures forall k :: 0 <= k < |s| ==> r[k] == TitleChar(s[k], k > 0 && IsLetter(s[k - 1]))
  {
    TitleAfter(s, false)
  }

  /** `title()` of the rest of a string, `afterLetter` saying whether the
      character before it was a letter. */
  function TitleAfter(s: string, afterLetter: bool): (r: string)
    ensures |r| == |s|
    ensures forall k :: 0 <= k < |s| ==>
      r[k] == TitleChar(s[k], if k == 0 then afterLetter else IsLetter(s[k - 1]))
  {
    if s == [] then []
    else [TitleChar(s[0], afterLetter)] + TitleAfter(s[1..], IsLetter(s[0]))
  }

  /** A word of letters in any case is title-cased to its lower-case form with
      the first letter raised. */
  lemma TitleOfWord(s: string)
    requires s != []
    requires forall k :: 0 <= k < |s| ==> IsLetter(s[k])
    ensures Title(s) == [UpperChar(Lower(s)[0])] + Lower(s)[1..]
  {
    var r, l := Title(s), Lower(s);
    forall k | 0 <= k < |s|
      ensures r[k] == ([UpperChar(l[0])] + l[1..])[k]
    {
      if k == 0 {
        assert r[0] == UpperChar(s[0]);
      } else {
        assert IsLetter(s[k - 1]);
        assert r[k] == LowerChar(s[k]) == l[k];
      }
    }
  }

  /** Lower-casing keeps white space where it was and is idempotent. */
  lemma LowerKeepsSpace(s: string)
    ensures forall k :: 0 <= k < |s| ==> (IsSpace(Lower(s)[k]) <==> IsSpace(s[k]))
    ensures Lower(Lower(s)) == Lower(s)
  {
  }
}
