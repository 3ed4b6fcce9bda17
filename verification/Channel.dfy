/** The result channel between the in-container runner, which prints its payload between two markers, and
    the client, which finds it again in whatever else reached stdout. */
module Channel {
  import opened Schema
  import opened Text

  const RESULT_BEGIN := "<<<PYTHON_COACH_RESULT_BEGIN>>>"
  const RESULT_END := "<<<PYTHON_COACH_RESULT_END>>>"

  // What the runner prints.
  function Frame(payload: string): string {
    RESULT_BEGIN + "\n" + payload + "\n" + RESULT_END
  }

  // The raw payload the client goes on to decode; None when it reports a missing payload.
  function Extract(stdout: string): Option<string> {
    var begin, end := Find(stdout, RESULT_BEGIN), Find(stdout, RESULT_END);
    if begin == -1 || end == -1 || end < begin then None
    else if end < begin + |RESULT_BEGIN| then Some("")
    else Some(Strip(stdout[begin + |RESULT_BEGIN|..end]))
  }

  /** The first begin marker and the first end marker decide: nothing unless both are there, in this order; else the
      stripped text between them. */
  lemma {:induction false} ExtractMeaning(s: string)
    ensures Extract(s).None? <==> Find(s, RESULT_BEGIN) == -1 || Find(s, RESULT_END) == -1
                                  || Find(s, RESULT_END) < Find(s, RESULT_BEGIN)
    ensures Extract(s).Some? ==>
              var begin, end := Find(s, RESULT_BEGIN), Find(s, RESULT_END);
              begin + |RESULT_BEGIN| <= end <= |s| && Extract(s) == Some(Strip(s[begin + |RESULT_BEGIN|..end]))
  {
    MarkersAreBracketed();
    hide RESULT_BEGIN, RESULT_END, Strip, FindFrom;
    var begin, end := Find(s, RESULT_BEGIN), Find(s, RESULT_END);
    if begin != -1 && end != -1 && begin <= end {
      OccursChar(s, RESULT_BEGIN, begin, 23);
      OccursChar(s, RESULT_END, begin, 23);
      assert begin < end;
      NoOverlap(s, RESULT_BEGIN, begin, RESULT_END, end);
    }
  }

  lemma {:induction false} OccursChar(s: string, m: string, i: int, k: nat)
    ensures OccursAt(s, m, i) && k < |m| ==> 0 <= i + k < |s| && s[i + k] == m[k]
  {
    if OccursAt(s, m, i) && k < |m| { assert s[i..i + |m|][k] == s[i + k]; }
  }

  // Three '<' in front, three '>' behind, neither of them nor a newline in between.
  predicate Bracketed(m: string) {
    && |m| > 8 && m[0] == m[1] == m[2] == '<' && m[|m| - 1] == m[|m| - 2] == m[|m| - 3] == '>'
    && forall i | 3 <= i < |m| - 3 :: m[i] != '<' && m[i] != '>' && m[i] != '\n'
  }

  lemma {:induction false} MarkersAreBracketed()
    ensures Bracketed(RESULT_BEGIN) && Bracketed(RESULT_END)
    ensures |RESULT_BEGIN| == 31 && |RESULT_END| == 29
    ensures RESULT_BEGIN[23] != RESULT_END[23]
  {}

  lemma {:induction false} OccursMeans(s: string, m: string, i: int)
    requires OccursAt(s, m, i)
    ensures forall k | i <= k < i + |m| :: s[k] == m[k - i]
  {
    assert forall k | i <= k < i + |m| :: s[k] == s[i..i + |m|][k - i];
  }

  lemma {:induction false} OccursIf(s: string, m: string, i: int)
    requires 0 <= i && i + |m| <= |s| && forall k | i <= k < i + |m| :: s[k] == m[k - i]
    ensures OccursAt(s, m, i)
  {}

  // No match straddles another: a marker has no proper prefix that is also a suffix.
  lemma {:induction false} NoOverlap(s: string, m: string, i: int, w: string, j: int)
    requires Bracketed(m) && Bracketed(w) && OccursAt(s, m, i) && OccursAt(s, w, j) && i < j
    ensures i + |m| <= j
  {
    OccursMeans(s, m, i);
    OccursMeans(s, w, j);
    assert s[j] == '<' && s[j + 1] == '<' && s[j + 2] == '<';
  }

  // ---- where the markers are in a framed output ---------------------------------------------------

  function Output(noise: string, payload: string, tail: string): string {
    noise + Frame(payload) + tail
  }

  // Where the runner printed the second marker.
  function EndAt(noise: string, payload: string): nat {
    |noise| + |RESULT_BEGIN| + 1 + |payload| + 1
  }

  lemma {:induction false} Layout(noise: string, payload: string, tail: string)
    ensures var s, p := Output(noise, payload, tail), EndAt(noise, payload);
            && OccursAt(s, RESULT_BEGIN, |noise|) && OccursAt(s, RESULT_END, p)
            && p + |RESULT_END| <= |s|
            && s[..|noise|] == noise && s[|noise| + |RESULT_BEGIN|] == '\n' && s[p - 1] == '\n'
            && s[|noise| + |RESULT_BEGIN| + 1..p - 1] == payload
  {
    hide RESULT_BEGIN, RESULT_END;
    var s := Output(noise, payload, tail);
    var b, e := RESULT_BEGIN, RESULT_END;
    var n, q := |noise|, |noise| + |b|;
    assert s == noise + (b + "\n" + payload + "\n" + e) + tail;
    assert s[n..q] == b;
    assert s[q] == '\n' && s[q + 1 + |payload|] == '\n';
    assert s[q + 1..q + 1 + |payload|] == payload;
    assert s[q + 2 + |payload|..q + 2 + |payload| + |e|] == e;
  }

  lemma {:induction false} OccursInPrefix(s: string, m: string, i: int, n: nat)
    requires n <= |s|
    ensures OccursAt(s[..n], m, i) <==> OccursAt(s, m, i) && i + |m| <= n
  {
    if 0 <= i && i + |m| <= n { assert s[..n][i..i + |m|] == s[i..i + |m|]; }
  }

  lemma {:induction false} OccursWithin(s: string, m: string, i: int, lo: nat, hi: nat)
    requires lo <= hi <= |s| && OccursAt(s, m, i) && lo <= i && i + |m| <= hi
    ensures OccursAt(s[lo..hi], m, i - lo)
  {
    OccursMeans(s, m, i);
    var part := s[lo..hi];
    forall k | i - lo <= k < i - lo + |m| ensures part[k] == m[k - (i - lo)] {
      assert part[k] == s[lo + k];
    }
    OccursIf(part, m, i - lo);
  }

  // A marker found before the printed one lies wholly in the noise.
  lemma {:induction false} EarlyMatchIsNoise(noise: string, payload: string, tail: string, m: string, i: int)
    requires m == RESULT_BEGIN || m == RESULT_END
    requires OccursAt(Output(noise, payload, tail), m, i) && i < |noise|
    ensures OccursAt(noise, m, i)
  {
    MarkersAreBracketed();
    hide RESULT_BEGIN, RESULT_END, Frame, Output;
    var s := Output(noise, payload, tail);
    Layout(noise, payload, tail);
    NoOverlap(s, m, i, RESULT_BEGIN, |noise|);
    OccursInPrefix(s, m, i, |noise|);
  }

  // An end marker found between the two printed ones lies wholly in the payload.
  lemma {:induction false} MiddleMatchIsPayload(noise: string, payload: string, tail: string, i: int)
    requires OccursAt(Output(noise, payload, tail), RESULT_END, i) && |noise| <= i < EndAt(noise, payload)
    ensures OccursAt(payload, RESULT_END, i - (|noise| + |RESULT_BEGIN| + 1))
  {
    MarkersAreBracketed();
    hide RESULT_BEGIN, RESULT_END, Frame, Output;
    var s, p := Output(noise, payload, tail), EndAt(noise, payload);
    var lo := |noise| + |RESULT_BEGIN|;
    Layout(noise, payload, tail);
    OccursMeans(s, RESULT_END, i);
    OccursMeans(s, RESULT_BEGIN, |noise|);
    if i > |noise| { NoOverlap(s, RESULT_BEGIN, |noise|, RESULT_END, i); }
    NoOverlap(s, RESULT_END, i, RESULT_END, p);
    assert s[|noise| + 23] == RESULT_BEGIN[23];
    assert forall k | i <= k < i + |RESULT_END| :: s[k] != '\n';
    assert lo <= i && s[lo] == '\n' && s[p - 1] == '\n';
    OccursWithin(s, RESULT_END, i, lo + 1, p - 1);
  }

  // A marker of the noise or of the payload is one of the output, too.
  lemma {:induction false} NoiseMatchIsMatch(noise: string, payload: string, tail: string, m: string, i: int)
    requires OccursAt(noise, m, i)
    ensures OccursAt(Output(noise, payload, tail), m, i)
  {
    Layout(noise, payload, tail);
    OccursInPrefix(Output(noise, payload, tail), m, i, |noise|);
  }

  lemma {:induction false} ContainsMeans(s: string, m: string)
    ensures Contains(s, m) <==> exists i :: OccursAt(s, m, i)
    ensures Find(s, m) == -1 <==> !Contains(s, m)
  {
    if i :| OccursAt(s, m, i) { assert 0 <= i <= |s|; }
  }

  // The first begin marker: the noise's own if it has one, else the printed one.
  lemma {:induction false} FirstBegin(noise: string, payload: string, tail: string)
    ensures Find(Output(noise, payload, tail), RESULT_BEGIN)
            == if Contains(noise, RESULT_BEGIN) then Find(noise, RESULT_BEGIN) else |noise|
  {
    hide RESULT_BEGIN, RESULT_END, Output, Contains, FindFrom;
    var s := Output(noise, payload, tail);
    Layout(noise, payload, tail);
    ContainsMeans(noise, RESULT_BEGIN);
    var b := Find(s, RESULT_BEGIN);
    if b < |noise| { EarlyMatchIsNoise(noise, payload, tail, RESULT_BEGIN, b); }
    if Contains(noise, RESULT_BEGIN) {
      NoiseMatchIsMatch(noise, payload, tail, RESULT_BEGIN, Find(noise, RESULT_BEGIN));
    }
  }

  // The first end marker: the noise's, else the payload's, else the printed one.
  lemma {:induction false} FirstEnd(noise: string, payload: string, tail: string)
    ensures var e := Find(Output(noise, payload, tail), RESULT_END);
            if Contains(noise, RESULT_END) then e == Find(noise, RESULT_END)
            else if Contains(payload, RESULT_END) then |noise| <= e < EndAt(noise, payload)
            else e == EndAt(noise, payload)
  {
    hide RESULT_BEGIN, RESULT_END, Output, Contains, FindFrom;
    var s, p := Output(noise, payload, tail), EndAt(noise, payload);
    var lo := |noise| + |RESULT_BEGIN| + 1;
    Layout(noise, payload, tail);
    ContainsMeans(noise, RESULT_END);
    ContainsMeans(payload, RESULT_END);
    var e := Find(s, RESULT_END);
    assert 0 <= e <= p;
    if e < |noise| { EarlyMatchIsNoise(noise, payload, tail, RESULT_END, e); }
    else if e < p { MiddleMatchIsPayload(noise, payload, tail, e); }
    if Contains(noise, RESULT_END) { NoiseMatchIsMatch(noise, payload, tail, RESULT_END, Find(noise, RESULT_END)); }
    if Contains(payload, RESULT_END) { PayloadMatchIsMatch(noise, payload, tail, Find(payload, RESULT_END)); }
  }

  lemma {:induction false} PayloadMatchIsMatch(noise: string, payload: string, tail: string, i: int)
    requires OccursAt(payload, RESULT_END, i)
    ensures OccursAt(Output(noise, payload, tail), RESULT_END, |noise| + |RESULT_BEGIN| + 1 + i)
    ensures |noise| + |RESULT_BEGIN| + 1 + i < EndAt(noise, payload)
  {
    hide RESULT_BEGIN, RESULT_END, Output;
    var s, lo := Output(noise, payload, tail), |noise| + |RESULT_BEGIN| + 1;
    Layout(noise, payload, tail);
    OccursMeans(payload, RESULT_END, i);
    forall k | lo + i <= k < lo + i + |RESULT_END| ensures s[k] == RESULT_END[k - (lo + i)] {
      assert s[k] == s[lo..EndAt(noise, payload) - 1][k - lo];
    }
    OccursIf(s, RESULT_END, lo + i);
  }

  // ---- the round trip -----------------------------------------------------------------------------------

  /** Whatever noise and tail surround it, a framed payload comes back up to outer white space, provided the
      noise holds no marker and the payload no end marker. */
  lemma {:induction false} FramingRoundTrip(noise: string, payload: string, tail: string)
    requires !Contains(noise, RESULT_BEGIN) && !Contains(noise, RESULT_END) && !Contains(payload, RESULT_END)
    ensures Extract(Output(noise, payload, tail)) == Some(Strip(payload))
  {
    hide RESULT_BEGIN, RESULT_END, Output, Contains, FindFrom, LStrip, RStrip;
    var s, p, b := Output(noise, payload, tail), EndAt(noise, payload), |noise| + |RESULT_BEGIN|;
    Layout(noise, payload, tail);
    FirstBegin(noise, payload, tail);
    FirstEnd(noise, payload, tail);
    var part := s[b..p];
    assert part[0] == '\n' && part[|part| - 1] == '\n' && part[1..|part| - 1] == payload;
    assert part == ['\n'] + payload + ['\n'];
    StripDropsOuterSpace(payload, '\n', '\n');
  }

  // ---- exactly when it fails ------------------------------------------------------------------------------

  lemma {:induction false} MarkersAreNotSpace(m: string, k: int)
    requires m == RESULT_BEGIN || m == RESULT_END
    requires k == 0 || k == |m| - 1
    ensures !IsSpace(m[k])
  {}

  // A marker in the payload is still there after stripping.
  lemma {:induction false} StripKeepsMarker(s: string, i: int)
    requires OccursAt(s, RESULT_END, i)
    ensures Contains(Strip(s), RESULT_END)
  {
    MarkersAreBracketed();
    MarkersAreNotSpace(RESULT_END, 0);
    MarkersAreNotSpace(RESULT_END, |RESULT_END| - 1);
    hide RESULT_BEGIN, RESULT_END, IsSpace, Strip;
    OccursMeans(s, RESULT_END, i);
    var a, b := StripSpans(s);
    OccursWithin(s, RESULT_END, i, a, b);
    ContainsMeans(Strip(s), RESULT_END);
  }

  // What is extracted ends before the first end marker, so it holds none.
  lemma {:induction false} ExtractedHasNoEnd(s: string)
    ensures Extract(s).Some? ==> !Contains(Extract(s).value, RESULT_END)
  {
    hide RESULT_BEGIN, RESULT_END, Strip, Contains, FindFrom;
    var r := Extract(s);
    if r.Some? && Contains(r.value, RESULT_END) {
      ContainsMeans(r.value, RESULT_END);
      var i :| OccursAt(r.value, RESULT_END, i);
      MarkersAreBracketed();
      var lo, end := Find(s, RESULT_BEGIN) + |RESULT_BEGIN|, Find(s, RESULT_END);
      if lo <= end {
        var region := s[lo..end];
        var a, b := StripSpans(region);
        OccursMeans(region[a..b], RESULT_END, i);
        forall k | lo + a + i <= k < lo + a + i + |RESULT_END| ensures s[k] == RESULT_END[k - (lo + a + i)] {
          assert s[k] == region[k - lo] == region[a..b][k - lo - a];
        }
        OccursIf(s, RESULT_END, lo + a + i);
      }
    }
  }

  lemma {:induction false} NoisyRegion(noise: string, payload: string, tail: string) returns (lo: nat)
    requires Contains(noise, RESULT_BEGIN) && !Contains(noise, RESULT_END) && !Contains(payload, RESULT_END)
    ensures lo <= |noise| && EndAt(noise, payload) <= |Output(noise, payload, tail)|
    ensures Extract(Output(noise, payload, tail))
            == Some(Strip(Output(noise, payload, tail)[lo..EndAt(noise, payload)]))
  {
    hide RESULT_BEGIN, RESULT_END, Output, Contains, FindFrom, Strip, IsSpace;
    Layout(noise, payload, tail);
    FirstBegin(noise, payload, tail);
    FirstEnd(noise, payload, tail);
    lo := Find(noise, RESULT_BEGIN) + |RESULT_BEGIN|;
    ContainsMeans(noise, RESULT_BEGIN);
  }

  lemma {:induction false} MarkerEdges()
    ensures |RESULT_BEGIN| == 31 && !IsSpace(RESULT_BEGIN[0]) && !IsSpace(RESULT_BEGIN[30])
  {
    MarkersAreBracketed();
    MarkersAreNotSpace(RESULT_BEGIN, 0);
    MarkersAreNotSpace(RESULT_BEGIN, 30);
  }

  // With a begin marker of its own, the noise adds at least a whole marker to the extracted text.
  lemma {:induction false} NoisyBeginIsTooLong(noise: string, payload: string, tail: string)
    requires Contains(noise, RESULT_BEGIN) && !Contains(noise, RESULT_END) && !Contains(payload, RESULT_END)
    ensures Extract(Output(noise, payload, tail)) != Some(Strip(payload))
  {
    hide RESULT_BEGIN, RESULT_END, Output, Contains, FindFrom, Strip, IsSpace, Extract, Frame;
    var s, p, n := Output(noise, payload, tail), EndAt(noise, payload), |noise|;
    MarkerEdges();
    Layout(noise, payload, tail);
    OccursMeans(s, RESULT_BEGIN, n);
    var lo := NoisyRegion(noise, payload, tail);
    var region, at := s[lo..p], n - lo;
    assert region[at] == s[n] && region[at + 30] == s[n + 30];
    forall k | 0 <= k < |payload| ensures region[at + 32 + k] == payload[k] {
      assert payload[k] == s[n + 32..p - 1][k] == s[n + 32 + k];
    }
    StripIsLonger(region, payload, at);
  }

  lemma {:induction false} StripIsLonger(region: string, payload: string, at: nat)
    requires at + 32 + |payload| <= |region| && !IsSpace(region[at]) && !IsSpace(region[at + 30])
    requires forall k | 0 <= k < |payload| :: region[at + 32 + k] == payload[k]
    ensures |Strip(region)| > |Strip(payload)|
  {
    hide Strip, IsSpace;
    var a, b := StripSpans(region);
    var c, d := StripSpans(payload);
    if c < d { assert region[at + 32 + (d - 1)] == payload[d - 1]; }
  }

  /** Unless the noise holds both markers, the payload comes back if and only if the noise holds neither and
      the payload no end marker. */
  lemma {:induction false} FramingIff(noise: string, payload: string, tail: string)
    requires !(Contains(noise, RESULT_BEGIN) && Contains(noise, RESULT_END))
    ensures Extract(Output(noise, payload, tail)) == Some(Strip(payload))
            <==> !Contains(noise, RESULT_BEGIN) && !Contains(noise, RESULT_END) && !Contains(payload, RESULT_END)
  {
    hide RESULT_BEGIN, RESULT_END, Output, Contains, FindFrom, Strip, OccursAt;
    if Contains(payload, RESULT_END) {
      ContainsMeans(payload, RESULT_END);
      var i :| OccursAt(payload, RESULT_END, i);
      StripKeepsMarker(payload, i);
      ExtractedHasNoEnd(Output(noise, payload, tail));
    } else if Contains(noise, RESULT_END) {
      NoisyEndIsNone(noise, payload, tail);
    } else if Contains(noise, RESULT_BEGIN) {
      NoisyBeginIsTooLong(noise, payload, tail);
    } else {
      FramingRoundTrip(noise, payload, tail);
    }
  }

  lemma {:induction false} NoisyEndIsNone(noise: string, payload: string, tail: string)
    requires !Contains(noise, RESULT_BEGIN) && Contains(noise, RESULT_END)
    ensures Extract(Output(noise, payload, tail)) == None
  {
    hide RESULT_BEGIN, RESULT_END, Output, Contains, FindFrom, Strip;
    FirstBegin(noise, payload, tail);
    FirstEnd(noise, payload, tail);
    ContainsMeans(noise, RESULT_END);
    MarkersAreBracketed();
  }

  /** With both markers in the noise, the payload has no influence at all: what the noise frames is extracted. */
  lemma {:induction false} NoiseWithBothWins(noise: string, payload: string, tail: string)
    requires Contains(noise, RESULT_BEGIN) && Contains(noise, RESULT_END)
    ensures Extract(Output(noise, payload, tail)) == Extract(noise)
  {
    hide RESULT_BEGIN, RESULT_END, Output, Contains, FindFrom, Strip;
    var s := Output(noise, payload, tail);
    Layout(noise, payload, tail);
    FirstBegin(noise, payload, tail);
    FirstEnd(noise, payload, tail);
    ContainsMeans(noise, RESULT_BEGIN);
    ContainsMeans(noise, RESULT_END);
    var lo, end := Find(noise, RESULT_BEGIN) + |RESULT_BEGIN|, Find(noise, RESULT_END);
    if lo <= end { assert s[lo..end] == s[..|noise|][lo..end]; }
  }

  lemma {:induction false} FirstQuotedEnd(noise: string, payload: string, tail: string)
    requires !Contains(noise, RESULT_END) && Contains(payload, RESULT_END)
    ensures Find(Output(noise, payload, tail), RESULT_END)
            == |noise| + |RESULT_BEGIN| + 1 + Find(payload, RESULT_END)
  {
    hide RESULT_BEGIN, RESULT_END, Output, Contains, FindFrom;
    FirstEnd(noise, payload, tail);
    ContainsMeans(payload, RESULT_END);
    MiddleMatchIsPayload(noise, payload, tail, Find(Output(noise, payload, tail), RESULT_END));
    PayloadMatchIsMatch(noise, payload, tail, Find(payload, RESULT_END));
  }

  // The text the client strips and decodes, for any output whatever: what lies between the first begin marker and
  // the first end marker, the runner's own where there is no other.
  function Heard(noise: string, payload: string): Option<string> {
    if Contains(noise, RESULT_END) then
      if Contains(noise, RESULT_BEGIN) then Extract(noise) else None
    else
      Some(Strip(if Contains(noise, RESULT_BEGIN) then AfterBegin(noise) + RESULT_BEGIN + Body(payload)
                 else Body(payload)))
  }

  // What the runner prints after its begin marker, up to the first end marker.
  function Body(payload: string): string {
    if Contains(payload, RESULT_END) then "\n" + payload[..CutAt(payload)] else "\n" + payload + "\n"
  }

  function CutAt(payload: string): (cut: nat)
    requires Contains(payload, RESULT_END)
    ensures cut <= |payload| && cut == Find(payload, RESULT_END)
  {
    ContainsMeans(payload, RESULT_END);
    Find(payload, RESULT_END)
  }

  function AfterBegin(noise: string): string
    requires Contains(noise, RESULT_BEGIN)
  {
    ContainsMeans(noise, RESULT_BEGIN);
    noise[Find(noise, RESULT_BEGIN) + |RESULT_BEGIN|..]
  }

  // Where the first end marker is, and what stands before it from the runner's begin marker on.
  lemma {:induction false} BodyBeforeEnd(noise: string, payload: string, tail: string) returns (end: nat)
    requires !Contains(noise, RESULT_END)
    ensures var s, body := Output(noise, payload, tail), Body(payload);
            && Find(s, RESULT_END) == end && |noise| + |RESULT_BEGIN| <= end <= |s|
            && s[..end] == noise + RESULT_BEGIN + body
  {
    hide RESULT_BEGIN, RESULT_END, Contains, FindFrom;
    var s := Output(noise, payload, tail);
    Layout(noise, payload, tail);
    FirstEnd(noise, payload, tail);
    if Contains(payload, RESULT_END) {
      FirstQuotedEnd(noise, payload, tail);
      end := |noise| + |RESULT_BEGIN| + 1 + CutAt(payload);
      assert s[..end] == noise + RESULT_BEGIN + ("\n" + payload[..CutAt(payload)]);
    } else {
      end := EndAt(noise, payload);
      assert s[..end] == noise + RESULT_BEGIN + ("\n" + payload + "\n");
    }
  }

  /** What is extracted from noise, frame and tail, for all three: a complete account of the channel. */
  lemma {:induction false} ExtractIsHeard(noise: string, payload: string, tail: string)
    ensures Extract(Output(noise, payload, tail)) == Heard(noise, payload)
  {
    hide RESULT_BEGIN, RESULT_END, Output, Contains, FindFrom, Strip, Body, AfterBegin, CutAt;
    if Contains(noise, RESULT_END) {
      if Contains(noise, RESULT_BEGIN) {
        NoiseWithBothWins(noise, payload, tail);
      } else {
        NoisyEndIsNone(noise, payload, tail);
      }
    } else {
      var s := Output(noise, payload, tail);
      var end := BodyBeforeEnd(noise, payload, tail);
      FirstBegin(noise, payload, tail);
      MarkersAreBracketed();
      ContainsMeans(noise, RESULT_BEGIN);
      HeardRegion(s, noise, end);
    }
  }

  lemma {:induction false} HeardRegion(s: string, noise: string, end: nat)
    requires |noise| + |RESULT_BEGIN| <= end <= |s| && s[..|noise| + |RESULT_BEGIN|] == noise + RESULT_BEGIN
    ensures var rest := s[|noise| + |RESULT_BEGIN|..end];
            && s[..end] == noise + RESULT_BEGIN + rest
            && (Contains(noise, RESULT_BEGIN) ==>
                  s[Find(noise, RESULT_BEGIN) + |RESULT_BEGIN|..end] == AfterBegin(noise) + RESULT_BEGIN + rest)
  {
    hide RESULT_BEGIN, Contains, FindFrom;
    var n := |noise| + |RESULT_BEGIN|;
    assert s[..end] == s[..n] + s[n..end];
    if Contains(noise, RESULT_BEGIN) {
      ContainsMeans(noise, RESULT_BEGIN);
      var lo := Find(noise, RESULT_BEGIN) + |RESULT_BEGIN|;
      assert s[lo..end] == s[..end][lo..] == (noise + RESULT_BEGIN + s[n..end])[lo..];
    }
  }

  /** A payload that quotes the end marker is cut off at the quotation. */
  lemma {:induction false} QuotedEndCuts(noise: string, payload: string, tail: string)
    requires !Contains(noise, RESULT_BEGIN) && !Contains(noise, RESULT_END) && Contains(payload, RESULT_END)
    ensures Extract(Output(noise, payload, tail)) == Some(Strip(payload[..CutAt(payload)]))
  {
    hide RESULT_BEGIN, RESULT_END, Output, Contains, Extract, RStrip, CutAt;
    ExtractIsHeard(noise, payload, tail);
    assert ("\n" + payload[..CutAt(payload)])[1..] == payload[..CutAt(payload)];
  }
}
