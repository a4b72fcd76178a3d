/** The string cleaning shared by the autoresearch modules. */
module Text {

  /** `str.isspace` of one character. */
  predicate IsSpace(c: char) {
    var code := c as int;
    || 9 <= code <= 13 || 28 <= code <= 32 || code == 0x85 || code == 0xA0 || code == 0x1680
    || 0x2000 <= code <= 0x200A || code == 0x2028 || code == 0x2029 || code == 0x202F
    || code == 0x205F || code == 0x3000
  }

  function StripLeft(s: string): string {
    if s != "" && IsSpace(s[0]) then StripLeft(s[1..]) else s
  }

  function StripRight(s: string): string {
    if s != "" && IsSpace(s[|s| - 1]) then StripRight(s[..|s| - 1]) else s
  }

  /** `str.strip`. */
  function Strip(s: string): string { StripRight(StripLeft(s)) }

  /** No white space at either end. */
  predicate Trimmed(s: string) { s == "" || (!IsSpace(s[0]) && !IsSpace(s[|s| - 1])) }

  lemma {:induction false} StripLeftIs(s: string)
    ensures StripLeft(s) == "" || !IsSpace(StripLeft(s)[0])
  {
    if s != "" && IsSpace(s[0]) { StripLeftIs(s[1..]); }
  }

  lemma {:induction false} StripRightIs(s: string)
    ensures StripRight(s) == "" || !IsSpace(StripRight(s)[|StripRight(s)| - 1])
    ensures StripRight(s) != "" ==> s != "" && StripRight(s)[0] == s[0]
  {
    if s != "" && IsSpace(s[|s| - 1]) { StripRightIs(s[..|s| - 1]); }
  }

  /** Stripping trims, and changes nothing exactly on trimmed strings. */
  lemma StripTrims(s: string)
    ensures Trimmed(Strip(s))
    ensures Strip(s) == s <==> Trimmed(s)
  {
    StripLeftIs(s);
    StripRightIs(StripLeft(s));
  }

  predicate Blank(s: string) { forall i :: 0 <= i < |s| ==> IsSpace(s[i]) }

  lemma {:induction false} StripLeftPadded(a: string, t: string)
    requires Blank(a) && (t == "" || !IsSpace(t[0]))
    ensures StripLeft(a + t) == t
  {
    if a == "" {
      assert a + t == t;
    } else {
      assert (a + t)[1..] == a[1..] + t;
      StripLeftPadded(a[1..], t);
    }
  }

  lemma {:induction false} StripRightPadded(t: string, b: string)
    requires Blank(b) && (t == "" || !IsSpace(t[|t| - 1]))
    ensures StripRight(t + b) == t
  {
    if b == "" {
      assert t + b == t;
    } else {
      assert (t + b)[..|t + b| - 1] == t + b[..|b| - 1];
      StripRightPadded(t, b[..|b| - 1]);
    }
  }

  /** Stripping takes white space off both ends and nothing else. */
  lemma StripPadded(a: string, t: string, b: string)
    requires Blank(a) && Blank(b) && Trimmed(t)
    ensures Strip(a + t + b) == t
  {
    if t == "" {
      assert a + t + b == (a + b) + "" && Blank(a + b);
      StripLeftPadded(a + b, "");
    } else {
      assert a + t + b == a + (t + b) && (t + b)[0] == t[0];
      StripLeftPadded(a, t + b);
      StripRightPadded(t, b);
    }
  }
}
