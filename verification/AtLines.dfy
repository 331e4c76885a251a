/** Splitting a received buffer into command lines (src/slm_at_main.c, slm_at_run_cycle). */
module AtLines {

  // ---------------------------------------------------------------- line splitting

  predicate IsBreak(c: char) {
    c == '\r' || c == '\n'
  }

  predicate Breaks(s: string) {
    forall i :: 0 <= i < |s| ==> IsBreak(s[i])
  }

  predicate NoBreaks(s: string) {
    forall i :: 0 <= i < |s| ==> !IsBreak(s[i])
  }

  function SkipBreaks(s: string, p: nat): (q: nat)
    requires p <= |s|
    ensures p <= q <= |s|
    decreases |s| - p
  {
    if p == |s| || !IsBreak(s[p]) then p else SkipBreaks(s, p + 1)
  }

  function LineEnd(s: string, p: nat): (q: nat)
    requires p <= |s|
    ensures p <= q <= |s|
    decreases |s| - p
  {
    if p == |s| || IsBreak(s[p]) then p else LineEnd(s, p + 1)
  }

  /** The lines slm_at_run_cycle dispatches, from position p on. */
  function LinesFrom(s: string, p: nat): seq<string>
    requires p <= |s|
    decreases |s| - p
  {
    var q := SkipBreaks(s, p);
    if q == |s| then []
    else
      var end := LineEnd(s, q);
      [s[q..end]] + LinesFrom(s, if end == |s| then end else end + 1)
  }

  /** Lines with line breaks before, between and perhaps after them. */
  function Stream(seps: seq<string>, ls: seq<string>): string
    requires |seps| == |ls| + 1
    decreases |ls|
  {
    if ls == [] then seps[0] else seps[0] + ls[0] + Stream(seps[1..], ls[1..])
  }

  /** Every separator consists of breaks, and none between two lines is empty. */
  predicate Separates(seps: seq<string>, ls: seq<string>) {
    && |seps| == |ls| + 1 && (forall i :: 0 <= i < |seps| ==> Breaks(seps[i]))
    && (forall i :: 0 < i < |ls| ==> seps[i] != "")
    && (forall i :: 0 <= i < |ls| ==> ls[i] != "" && NoBreaks(ls[i]))
  }

  lemma {:induction false} SkipIs(s: string, p: nat, q: nat)
    requires p <= q <= |s| && (q < |s| ==> !IsBreak(s[q])) && forall k :: p <= k < q ==> IsBreak(s[k])
    ensures SkipBreaks(s, p) == q
    decreases q - p
  {
    if p < q {
      SkipIs(s, p + 1, q);
    }
  }

  lemma {:induction false} EndIs(s: string, p: nat, q: nat)
    requires p <= q <= |s| && (q < |s| ==> IsBreak(s[q])) && forall k :: p <= k < q ==> !IsBreak(s[k])
    ensures LineEnd(s, p) == q
    decreases q - p
  {
    if p < q {
      EndIs(s, p + 1, q);
    }
  }

  lemma LinesUnfold(s: string, p: nat, q: nat, end: nat)
    requires p <= |s| && SkipBreaks(s, p) == q < |s| && LineEnd(s, q) == end
    ensures LinesFrom(s, p) == [s[q..end]] + LinesFrom(s, if end == |s| then end else end + 1)
  {
  }

  /** What follows position p, character by character. */
  lemma Segment(s: string, done: string, x: string, rest: string)
    requires s == done + x + rest
    ensures |s| == |done| + |x| + |rest| && s[|done|..|done| + |x|] == x
    ensures forall k :: |done| <= k < |done| + |x| ==> s[k] == x[k - |done|]
    ensures rest != "" ==> s[|done| + |x|] == rest[0]
  {
  }

  /** A line delimited by breaks. */
  ghost predicate Delimited(s: string, p: nat, q: nat, end: nat) {
    && p <= q < end <= |s| && (end < |s| ==> IsBreak(s[end]))
    && (forall k :: p <= k < q ==> IsBreak(s[k])) && (forall k :: q <= k < end ==> !IsBreak(s[k]))
  }

  /** It is the first line read, and reading goes on behind the break that ends it. */
  lemma DelimitedRead(s: string, p: nat, q: nat, end: nat, line: string, next: nat, more: seq<string>)
    requires Delimited(s, p, q, end) && s[q..end] == line && next == (if end == |s| then end else end + 1)
    requires LinesFrom(s, next) == more
    ensures LinesFrom(s, p) == [line] + more
  {
    SkipIs(s, p, q);
    EndIs(s, q, end);
    LinesUnfold(s, p, q, end);
  }

  lemma DelimitedAt(s: string, done: string, gap: string, line: string, rest: string)
    requires s == done + gap + line + rest
    requires Breaks(gap) && line != "" && NoBreaks(line) && (rest == "" || IsBreak(rest[0]))
    ensures Delimited(s, |done|, |done| + |gap|, |done| + |gap| + |line|)
    ensures s[|done| + |gap|..|done| + |gap| + |line|] == line
  {
    assert s == done + gap + (line + rest);
    Segment(s, done, gap, line + rest);
    Segment(s, done + gap, line, rest);
  }

  lemma NextSeparates(seps: seq<string>, ls: seq<string>)
    requires Separates(seps, ls) && ls != [] && seps[1] != ""
    ensures var later := [seps[1][1..]] + seps[2..];
      && Separates(later, ls[1..]) && IsBreak(seps[1][0])
      && Stream(seps[1..], ls[1..]) == seps[1][..1] + Stream(later, ls[1..])
  {
    var later := [seps[1][1..]] + seps[2..];
    assert seps[1] == seps[1][..1] + seps[1][1..];
    assert later[1..] == seps[1..][1..];
  }

  /** One line, one break character and then the rest. */
  lemma LineThenRest(done: string, gap: string, line: string, first: string, tail: string, more: seq<string>)
    requires Breaks(gap) && line != "" && NoBreaks(line) && |first| == 1 && IsBreak(first[0])
    requires var head := done + gap + line + first; LinesFrom(head + tail, |head|) == more
    ensures LinesFrom(done + (gap + line + (first + tail)), |done|) == [line] + more
  {
    var s, head := done + (gap + line + (first + tail)), done + gap + line + first;
    assert s == head + tail;
    assert s == done + gap + line + (first + tail);
    DelimitedAt(s, done, gap, line, first + tail);
    DelimitedRead(s, |done|, |done| + |gap|, |done| + |gap| + |line|, line, |head|, more);
  }

  lemma LastLine(done: string, gap: string, line: string)
    requires Breaks(gap) && line != "" && NoBreaks(line)
    ensures LinesFrom(done + (gap + line + ""), |done|) == [line]
  {
    var s := done + (gap + line + "");
    assert s == done + gap + line + "";
    DelimitedAt(s, done, gap, line, "");
    SkipIs(s, |s|, |s|);
    DelimitedRead(s, |done|, |done| + |gap|, |s|, line, |s|, []);
  }

  lemma NoLine(done: string, gap: string)
    requires Breaks(gap)
    ensures LinesFrom(done + gap, |done|) == []
  {
    SkipIs(done + gap, |done|, |done| + |gap|);
  }

  /** Splitting gives back exactly the lines that were joined, in order. */
  lemma {:induction false} SplitReads(done: string, seps: seq<string>, ls: seq<string>)
    requires Separates(seps, ls)
    ensures LinesFrom(done + Stream(seps, ls), |done|) == ls
    decreases |ls|
  {
    if ls == [] {
      NoLine(done, seps[0]);
    } else if seps[1] == "" {
      assert ls == [ls[0]];
      LastLine(done, seps[0], ls[0]);
    } else {
      var first, later := seps[1][..1], [seps[1][1..]] + seps[2..];
      NextSeparates(seps, ls);
      SplitReads(done + seps[0] + ls[0] + first, later, ls[1..]);
      LineThenRest(done, seps[0], ls[0], first, Stream(later, ls[1..]), ls[1..]);
      assert ls == [ls[0]] + ls[1..];
    }
  }

  // ---------------------------------------------------------- as the code runs

  method Skip(buf: string, p: nat) returns (q: nat)
    requires p <= |buf|
    ensures q == SkipBreaks(buf, p)
  {
    q := p;
    while q < |buf| && IsBreak(buf[q])
      invariant p <= q <= |buf| && SkipBreaks(buf, q) == SkipBreaks(buf, p)
    {
      q := q + 1;
    }
  }

  method EndOfLine(buf: string, p: nat) returns (end: nat)
    requires p <= |buf|
    ensures end == LineEnd(buf, p)
  {
    end := p;
    while end < |buf| && !IsBreak(buf[end])
      invariant p <= end <= |buf| && LineEnd(buf, end) == LineEnd(buf, p)
    {
      end := end + 1;
    }
  }

  /** The loop of slm_at_run_cycle; out are the lines handed to dispatch(). */
  method RunCycle(buf: string) returns (out: seq<string>)
    ensures out == LinesFrom(buf, 0)
  {
    ghost var goal := LinesFrom(buf, 0);
    out := [];
    var p := 0;
    assert [] + goal == goal;
    while p < |buf|
      invariant p <= |buf| && goal == out + LinesFrom(buf, p)
      decreases |buf| - p
    {
      var q := Skip(buf, p);
      if q == |buf| {
        assert out + [] == out;
        return;
      }
      var end := EndOfLine(buf, q);
      LinesUnfold(buf, p, q, end);
      var next := if end == |buf| then end else end + 1;
      Regroup(out, buf[q..end], LinesFrom(buf, next));
      out, p := out + [buf[q..end]], next;
    }
    assert out + [] == out;
  }

  lemma Regroup(a: seq<string>, x: string, b: seq<string>)
    ensures a + ([x] + b) == (a + [x]) + b
  {
  }
}
