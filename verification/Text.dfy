/** The string operations the backend relies on: find, in, strip. */
module Text {

  predicate OccursAt(s: string, m: string, i: int) {
    0 <= i && i + |m| <= |s| && s[i..i + |m|] == m
  }

  function FindFrom(s: string, m: string, from: nat): (r: int)
    requires from <= |s|
    ensures r == -1 || (from <= r && OccursAt(s, m, r))
    ensures forall i | from <= i && OccursAt(s, m, i) :: 0 <= r <= i
    decreases |s| - from
  {
    if OccursAt(s, m, from) then from
    else if from == |s| then -1
    else FindFrom(s, m, from + 1)
  }

  // str.find: the first occurrence, or -1.
  function Find(s: string, m: string): (r: int)
    ensures r == -1 || OccursAt(s, m, r)
    ensures forall i | OccursAt(s, m, i) :: 0 <= r <= i
  {
    FindFrom(s, m, 0)
  }

  // m in s
  predicate Contains(s: string, m: string) {
    exists i | 0 <= i <= |s| :: OccursAt(s, m, i)
  }

  // str.isspace
  predicate IsSpace(c: char) {
    var n := c as int;
    9 <= n <= 13 || 28 <= n <= 32 || n == 0x85 || n == 0xA0 || n == 0x1680 || 0x2000 <= n <= 0x200A
    || n == 0x2028 || n == 0x2029 || n == 0x202F || n == 0x205F || n == 0x3000
  }

  /** The white space characters, by code point. */
  lemma {:induction false} SpaceMeaning(c: char)
    ensures IsSpace(c) <==> c as int in {9, 10, 11, 12, 13, 28, 29, 30, 31, 32, 133, 160, 5760, 8192, 8193, 8194, 8195,
                                         8196, 8197, 8198, 8199, 8200, 8201, 8202, 8232, 8233, 8239, 8287, 12288}
  {}

  function LStrip(s: string): string {
    if s != "" && IsSpace(s[0]) then LStrip(s[1..]) else s
  }

  function RStrip(s: string): string {
    if s != "" && IsSpace(s[|s| - 1]) then RStrip(s[..|s| - 1]) else s
  }

  function Strip(s: string): string {
    RStrip(LStrip(s))
  }

  lemma {:induction false} LStripAppend(s: string, c: char)
    requires IsSpace(c)
    ensures LStrip(s + [c]) == if LStrip(s) == "" then "" else LStrip(s) + [c]
  {
    if s == "" {
      assert (s + [c])[1..] == "";
    } else {
      assert (s + [c])[1..] == s[1..] + [c];
      if IsSpace(s[0]) { LStripAppend(s[1..], c); }
    }
  }

  lemma {:induction false} StripDropsOuterSpace(s: string, a: char, b: char)
    requires IsSpace(a) && IsSpace(b)
    ensures Strip([a] + s + [b]) == Strip(s)
  {
    assert ([a] + s + [b])[1..] == s + [b];
    LStripAppend(s, b);
    if LStrip(s) != "" {
      assert (LStrip(s) + [b])[..|LStrip(s)|] == LStrip(s);
    }
  }

  // not code or not code.strip()
  predicate Blank(s: string) {
    Strip(s) == ""
  }

  // Strip is the slice between the outermost non-space characters.
  lemma {:induction false} LStripSlice(s: string) returns (a: nat)
    ensures a <= |s| && LStrip(s) == s[a..] && (forall i | 0 <= i < a :: IsSpace(s[i])) && (a < |s| ==> !IsSpace(s[a]))
  {
    if s != "" && IsSpace(s[0]) {
      var b := LStripSlice(s[1..]);
      a := b + 1;
      assert s[1..][b..] == s[a..];
      assert forall i | 0 < i < a :: s[i] == s[1..][i - 1];
    } else {
      a := 0;
    }
  }

  lemma {:induction false} RStripSlice(s: string) returns (b: nat)
    ensures b <= |s| && RStrip(s) == s[..b]
    ensures (forall i | b <= i < |s| :: IsSpace(s[i])) && (b > 0 ==> !IsSpace(s[b - 1]))
  {
    if s != "" && IsSpace(s[|s| - 1]) {
      b := RStripSlice(s[..|s| - 1]);
      assert s[..|s| - 1][..b] == s[..b];
    } else {
      b := |s|;
    }
  }

  // A non-space character survives, with everything between two of them.
  lemma {:induction false} StripSpans(s: string) returns (a: nat, b: nat)
    ensures a <= b <= |s| && Strip(s) == s[a..b]
    ensures forall i | 0 <= i < |s| && !IsSpace(s[i]) :: a <= i < b
    ensures a < b ==> !IsSpace(s[a]) && !IsSpace(s[b - 1])
  {
    hide IsSpace;
    a := LStripSlice(s);
    var t := LStrip(s);
    var c := RStripSlice(t);
    b := a + c;
    assert forall i | 0 <= i < |t| :: t[i] == s[a + i];
    assert t[..c] == s[a..b];
    forall i | 0 <= i < |s| && !IsSpace(s[i]) ensures a <= i < b {
      assert a <= i ==> t[i - a] == s[i];
    }
  }

  /** str.strip keeps what lies between the outermost characters that are not white space, and nothing else. */
  lemma {:induction false} StripMeaning(s: string, a: nat, b: nat)
    requires a < b <= |s| && !IsSpace(s[a]) && !IsSpace(s[b - 1])
    requires forall i | 0 <= i < |s| && !(a <= i < b) :: IsSpace(s[i])
    ensures Strip(s) == s[a..b]
  {
    hide IsSpace, Strip;
    var c, d := StripSpans(s);
  }

  /** A text is blank iff every character of it is white space. */
  lemma {:induction false} BlankMeaning(s: string)
    ensures Blank(s) <==> forall i | 0 <= i < |s| :: IsSpace(s[i])
  {
    hide IsSpace, Strip;
    var a, b := StripSpans(s);
    if a < b { assert !IsSpace(s[a]); }
  }

  lemma {:induction false} ContainsMeaning(s: string, m: string)
    ensures Contains(s, m) <==> exists before, after :: s == before + m + after
  {
    if i :| 0 <= i <= |s| && OccursAt(s, m, i) {
      assert s == s[..i] + m + s[i + |m|..];
    }
    if before, after :| s == before + m + after {
      assert (before + m + after)[|before|..|before| + |m|] == m;
      assert OccursAt(s, m, |before|);
    }
  }
}
