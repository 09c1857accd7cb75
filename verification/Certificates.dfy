/** Splitting a text into PEM certificates and printing them back (the labels of section 2 of RFC 7468). */
module Certificates {
  import opened Wrappers

  const BEGIN := "-----BEGIN CERTIFICATE-----"
  const END := "-----END CERTIFICATE-----"

  predicate IsSpace(c: char) {
    c in {' ', '\t', '\n', '\r', '\U{000C}'}
  }

  /** m stands in s at position i. */
  predicate At(s: string, i: nat, m: string) {
    i + |m| <= |s| && s[i..i + |m|] == m
  }

  /** The first position from i on that is not white space. */
  function SkipSpace(s: string, i: nat): (r: nat)
    requires i <= |s|
    ensures i <= r <= |s| && (forall k :: i <= k < r ==> IsSpace(s[k])) && (r < |s| ==> !IsSpace(s[r]))
    decreases |s| - i
  {
    if i < |s| && IsSpace(s[i]) then SkipSpace(s, i + 1) else i
  }

  /** From e on there is white space, if any, and then the end label. */
  predicate Closes(s: string, e: nat) {
    e <= |s| && At(s, SkipSpace(s, e), END)
  }

  /** The lazy part of the pattern: the first position from e on that closes. */
  function Shortest(s: string, e: nat): (r: Option<nat>)
    ensures r.Some? ==> e <= r.value <= |s| && Closes(s, r.value) && forall x: nat :: e <= x < r.value ==> !Closes(s, x)
    ensures r.None? ==> forall x: nat :: e <= x ==> !Closes(s, x)
    decreases |s| - e
  {
    if e > |s| then None
    else if Closes(s, e) then Some(e)
    else Shortest(s, e + 1)
  }

  /** Where the shortest body that begins at p ends. */
  function BodyEnd(s: string, p: nat): Option<nat> {
    Shortest(s, p + 1)
  }

  /** The greedy part: white space before the body up to p, giving back one character at a time; the result
      is where the body begins. */
  function GiveBack(s: string, start: nat, p: nat): (r: Option<nat>)
    requires start <= p
    ensures r.Some? ==> start <= r.value <= p && BodyEnd(s, r.value).Some?
    ensures forall q: nat :: (if r.Some? then r.value < q else start <= q) && q <= p ==> BodyEnd(s, q).None?
    decreases p - start
  {
    if BodyEnd(s, p).Some? then Some(p)
    else if p > start then GiveBack(s, start, p - 1)
    else None
  }

  /** A match of the pattern at the beginning of s: where the body begins and ends, and where the match ends. */
  datatype Match = Match(from: nat, to: nat, end: nat)

  function MatchHere(s: string): (r: Option<Match>)
    ensures r.Some? ==> |BEGIN| <= r.value.from < r.value.to < r.value.end <= |s|
  {
    if !At(s, 0, BEGIN) then None
    else
      var r := GiveBack(s, |BEGIN|, SkipSpace(s, |BEGIN|));
      if r.None? then None
      else
        var to := BodyEnd(s, r.value).value;
        Some(Match(r.value, to, SkipSpace(s, to) + |END|))
  }

  /** The bodies of all matches, leftmost first and without overlap. */
  function Bodies(s: string): seq<string>
    decreases |s|
  {
    if s == "" then []
    else
      var m := MatchHere(s);
      if m.Some? then [s[m.value.from..m.value.to]] + Bodies(s[m.value.end..])
      else Bodies(s[1..])
  }

  function Block(body: string): string {
    BEGIN + "\n" + body + "\n" + END
  }

  function Blocks(bodies: seq<string>): seq<string> {
    seq(|bodies|, i requires 0 <= i < |bodies| => Block(bodies[i]))
  }

  /** Blocks joined by newlines. */
  function Join(bodies: seq<string>): string {
    if bodies == [] then ""
    else if |bodies| == 1 then Block(bodies[0])
    else Block(bodies[0]) + "\n" + Join(bodies[1..])
  }

  method ParseCertificates(str: string) returns (certs: seq<string>)
    ensures certs == Blocks(Bodies(str))
    ensures |certs| == |Bodies(str)|
    ensures forall k :: 0 <= k < |certs| ==> certs[k] == BEGIN + "\n" + Bodies(str)[k] + "\n" + END
  {
    hide Bodies, Block;
    var matches := Bodies(str);
    certs := [];
    for i := 0 to |matches|
      invariant certs == Blocks(matches)[..i]
    {
      certs := certs + [Block(matches[i])];
    }
    forall k | 0 <= k < |certs| ensures certs[k] == BEGIN + "\n" + matches[k] + "\n" + END {
      BlockIs(matches[k]);
    }
  }

  lemma BlockIs(body: string)
    ensures Block(body) == BEGIN + "\n" + body + "\n" + END
  {
  }

  /** The pattern as a relation: white space up to p, a body up to e, white space up to k, the end label. */
  ghost predicate Fits(s: string, p: nat, e: nat, k: nat) {
    && At(s, 0, BEGIN) && |BEGIN| <= p < e <= k <= |s| && At(s, k, END)
    && (forall i :: |BEGIN| <= i < p ==> IsSpace(s[i]))
    && (forall i :: e <= i < k ==> IsSpace(s[i]))
  }

  lemma {:induction false} SkipSpaceIs(s: string, i: nat, k: nat)
    requires i <= k <= |s| && (forall x :: i <= x < k ==> IsSpace(s[x])) && (k < |s| ==> !IsSpace(s[k]))
    ensures SkipSpace(s, i) == k
    decreases k - i
  {
    if i < k {
      SkipSpaceIs(s, i + 1, k);
    }
  }

  lemma EndIsNotSpace(s: string, k: nat)
    requires At(s, k, END)
    ensures k < |s| && s[k] == '-' && !IsSpace(s[k])
  {
    assert s[k] == s[k..k + |END|][0];
  }

  lemma MatchFits(s: string)
    requires MatchHere(s).Some?
    ensures var m := MatchHere(s).value; m.end >= |END| && Fits(s, m.from, m.to, m.end - |END|)
  {
    hide Shortest, GiveBack;
    var m := MatchHere(s).value;
    assert Closes(s, m.to);
  }

  lemma FittingBodyCloses(s: string, p: nat, e: nat, k: nat)
    requires Fits(s, p, e, k)
    ensures Closes(s, e) && p <= SkipSpace(s, |BEGIN|)
  {
    EndIsNotSpace(s, k);
    SkipSpaceIs(s, e, k);
  }

  /** The matcher finds a match when there is one, and then the preferred one: as much white space before the
      body as possible, and given that the shortest body. */
  lemma MatchIsPreferred(s: string, p: nat, e: nat, k: nat)
    requires Fits(s, p, e, k)
    ensures MatchHere(s).Some?
    ensures var m := MatchHere(s).value; p <= m.from && (p == m.from ==> m.to <= e)
  {
    hide Shortest, GiveBack, Closes, SkipSpace;
    FittingBodyCloses(s, p, e, k);
    assert BodyEnd(s, p).Some? && BodyEnd(s, p).value <= e;
    var r := GiveBack(s, |BEGIN|, SkipSpace(s, |BEGIN|));
    assert r.Some? && p <= r.value;
  }

  /** The bodies are those of matches ms that begin at the positions `at`, in order and without overlap, and no
      match begins outside of them. */
  ghost predicate Spans(s: string, at: seq<nat>, ms: seq<Match>, bodies: seq<string>) {
    && |at| == |ms| == |bodies|
    && (forall k :: 0 <= k < |at| ==> SpanAt(s, at[k], ms[k], bodies[k]))
    && (forall k, l :: 0 <= k < l < |at| ==> at[k] + ms[k].end <= at[l])
    && (forall x: nat :: x < |s| && Outside(at, ms, x) ==> MatchHere(s[x..]).None?)
  }

  predicate SpanAt(s: string, i: nat, m: Match, body: string) {
    i <= |s| && MatchHere(s[i..]) == Some(m) && m.from <= m.to <= |s| - i && body == s[i + m.from..i + m.to]
  }

  ghost predicate Outside(at: seq<nat>, ms: seq<Match>, x: nat)
    requires |at| == |ms|
  {
    forall k :: 0 <= k < |at| ==> x < at[k] || at[k] + ms[k].end <= x
  }

  function Shift(at: seq<nat>, d: nat): seq<nat> {
    seq(|at|, k requires 0 <= k < |at| => at[k] + d)
  }

  lemma SpanShifts(s: string, d: nat, i: nat, m: Match, body: string)
    requires d <= |s| && SpanAt(s[d..], i, m, body)
    ensures SpanAt(s, i + d, m, body)
  {
    hide MatchHere;
    assert s[d..][i..] == s[i + d..];
    assert s[d..][i + m.from..i + m.to] == s[i + d + m.from..i + d + m.to];
  }

  lemma OutsideShifts(s: string, d: nat, at: seq<nat>, ms: seq<Match>, bodies: seq<string>, x: nat)
    requires d <= x < |s| && Spans(s[d..], at, ms, bodies) && Outside(Shift(at, d), ms, x)
    ensures MatchHere(s[x..]).None?
  {
    hide MatchHere, SpanAt;
    forall k | 0 <= k < |at| ensures x - d < at[k] || at[k] + ms[k].end <= x - d {
      assert Shift(at, d)[k] == at[k] + d;
    }
    assert s[d..][x - d..] == s[x..];
  }

  lemma SpansSkip(s: string, at: seq<nat>, ms: seq<Match>, bodies: seq<string>)
    requires s != "" && MatchHere(s).None? && Spans(s[1..], at, ms, bodies)
    ensures Spans(s, Shift(at, 1), ms, bodies)
  {
    hide MatchHere, SpanAt;
    forall k | 0 <= k < |at| ensures SpanAt(s, Shift(at, 1)[k], ms[k], bodies[k]) {
      SpanShifts(s, 1, at[k], ms[k], bodies[k]);
    }
    forall x: nat | x < |s| && Outside(Shift(at, 1), ms, x) ensures MatchHere(s[x..]).None? {
      if x > 0 {
        OutsideShifts(s, 1, at, ms, bodies, x);
      } else {
        assert s[0..] == s;
      }
    }
  }

  lemma ConsApart(end: nat, m: Match, at: seq<nat>, ms: seq<Match>)
    requires |at| == |ms| && m.end == end && forall k, l :: 0 <= k < l < |at| ==> at[k] + ms[k].end <= at[l]
    ensures var at', ms' := [0] + Shift(at, end), [m] + ms;
      forall k, l :: 0 <= k < l < |at'| ==> at'[k] + ms'[k].end <= at'[l]
  {
  }

  lemma ConsOutside(m: Match, at: seq<nat>, ms: seq<Match>, x: nat)
    requires |at| == |ms| && Outside([0] + Shift(at, m.end), [m] + ms, x)
    ensures m.end <= x && Outside(Shift(at, m.end), ms, x)
  {
    var at', ms' := [0] + Shift(at, m.end), [m] + ms;
    assert x < at'[0] || at'[0] + ms'[0].end <= x;
    forall k | 0 <= k < |at| ensures x < Shift(at, m.end)[k] || Shift(at, m.end)[k] + ms[k].end <= x {
      assert at'[k + 1] == Shift(at, m.end)[k] && ms'[k + 1] == ms[k];
    }
  }

  lemma FirstSpan(s: string, m: Match)
    requires MatchHere(s) == Some(m)
    ensures 0 < m.end <= |s| && m.from <= m.to <= |s| && SpanAt(s, 0, m, s[m.from..m.to])
  {
    assert s[0..] == s;
  }

  lemma SpansCons(s: string, m: Match, at: seq<nat>, ms: seq<Match>, bodies: seq<string>)
    requires MatchHere(s) == Some(m) && Spans(s[m.end..], at, ms, bodies)
    ensures Spans(s, [0] + Shift(at, m.end), [m] + ms, [s[m.from..m.to]] + bodies)
  {
    hide MatchHere, SpanAt, Outside;
    FirstSpan(s, m);
    var at', ms', bodies' := [0] + Shift(at, m.end), [m] + ms, [s[m.from..m.to]] + bodies;
    forall k | 0 <= k < |at'| ensures SpanAt(s, at'[k], ms'[k], bodies'[k]) {
      if k > 0 {
        SpanShifts(s, m.end, at[k - 1], ms[k - 1], bodies[k - 1]);
      }
    }
    ConsApart(m.end, m, at, ms);
    forall x: nat | x < |s| && Outside(at', ms', x) ensures MatchHere(s[x..]).None? {
      ConsOutside(m, at, ms, x);
      OutsideShifts(s, m.end, at, ms, bodies, x);
    }
  }

  /** From any text exactly the leftmost matches are taken, one after another. */
  lemma {:induction false} BodiesAreLeftmost(s: string) returns (at: seq<nat>, ms: seq<Match>)
    ensures Spans(s, at, ms, Bodies(s))
    decreases |s|
  {
    hide MatchHere, Spans;
    if s == "" {
      at, ms := [], [];
      NoSpans();
    } else if MatchHere(s).Some? {
      var m := MatchHere(s).value;
      at, ms := BodiesAreLeftmost(s[m.end..]);
      SpansCons(s, m, at, ms, Bodies(s[m.end..]));
      at, ms := [0] + Shift(at, m.end), [m] + ms;
    } else {
      at, ms := BodiesAreLeftmost(s[1..]);
      SpansSkip(s, at, ms, Bodies(s[1..]));
      at := Shift(at, 1);
    }
  }

  lemma NoSpans()
    ensures Spans("", [], [], [])
  {
  }

  /** A body the printer can carry: not empty, and no white space at either end. */
  predicate Trimmed(body: string) {
    body != "" && !IsSpace(body[0]) && !IsSpace(body[|body| - 1])
  }

  /** The end label stands nowhere in the body, except possibly at its very beginning. */
  ghost predicate NoEndInside(body: string) {
    forall i: nat :: 1 <= i ==> !At(body, i, END)
  }

  lemma EndHasNoNewline()
    ensures forall i :: 0 <= i < |END| ==> END[i] != '\n'
    ensures BEGIN[0] == '-' && END[0] == '-' && |BEGIN| == 27 && |END| == 25
  {
  }

  /** Where the parts of a printed block stand. */
  lemma BlockLayout(body: string, rest: string)
    ensures var s, n := Block(body) + rest, |body|;
      && |s| == |BEGIN| + n + |END| + 2 + |rest| && At(s, 0, BEGIN) && s[|BEGIN|] == '\n'
      && s[|BEGIN| + 1..|BEGIN| + 1 + n] == body
      && s[|BEGIN| + 1 + n] == '\n' && At(s, |BEGIN| + 2 + n, END)
      && s[|BEGIN| + 2 + n + |END|..] == rest
  {
  }

  lemma BodyBegins(body: string, rest: string)
    requires Trimmed(body)
    ensures SkipSpace(Block(body) + rest, |BEGIN|) == |BEGIN| + 1
  {
    var s := Block(body) + rest;
    BlockLayout(body, rest);
    assert s[|BEGIN| + 1] == s[|BEGIN| + 1..|BEGIN| + 1 + |body|][0];
    SkipSpaceIs(s, |BEGIN|, |BEGIN| + 1);
  }

  lemma BodyCloses(body: string, rest: string)
    ensures Closes(Block(body) + rest, |BEGIN| + 1 + |body|)
    ensures SkipSpace(Block(body) + rest, |BEGIN| + 1 + |body|) == |BEGIN| + 2 + |body|
  {
    BlockLayout(body, rest);
    EndIsNotSpace(Block(body) + rest, |BEGIN| + 2 + |body|);
    SkipSpaceIs(Block(body) + rest, |BEGIN| + 1 + |body|, |BEGIN| + 2 + |body|);
  }

  /** s holds the body at position b, then a newline and the end label. */
  ghost predicate Holds(s: string, b: nat, body: string) {
    && b + |body| < |s| && s[b..b + |body|] == body
    && s[b + |body|] == '\n' && At(s, b + |body| + 1, END)
  }

  lemma CharOfBody(s: string, b: nat, body: string, x: nat)
    requires Holds(s, b, body) && x < |body|
    ensures s[b + x] == body[x]
  {
    assert s[b + x] == s[b..b + |body|][x];
  }

  lemma EndInBody(s: string, b: nat, body: string, i: nat)
    requires Holds(s, b, body) && i + |END| <= |body|
    ensures At(s, b + i, END) <==> At(body, i, END)
  {
    SliceOfSlice(s, b, b + |body|, i, i + |END|);
  }

  lemma SliceOfSlice(s: string, lo: nat, hi: nat, i: nat, j: nat)
    requires lo <= hi <= |s| && i <= j <= hi - lo
    ensures s[lo..hi][i..j] == s[lo + i..lo + j]
  {
    forall x | 0 <= x < j - i ensures s[lo..hi][i..j][x] == s[lo + i..lo + j][x] {
      assert s[lo..hi][i..j][x] == s[lo..hi][i + x];
    }
  }

  lemma EndAcrossNewline(s: string, b: nat, body: string, k: nat)
    requires Holds(s, b, body) && b <= k <= b + |body| < k + |END|
    ensures !At(s, k, END)
  {
    EndHasNoNewline();
    if k + |END| <= |s| {
      assert s[k..k + |END|][b + |body| - k] == '\n';
    }
  }

  lemma NothingClosesEarlier(s: string, b: nat, body: string, i: nat)
    requires Holds(s, b, body) && Trimmed(body) && NoEndInside(body) && 1 <= i < |body|
    ensures !Closes(s, b + i)
  {
    CharOfBody(s, b, body, |body| - 1);
    var k := SkipSpace(s, b + i);
    assert k <= b + |body| - 1;
    if k + |END| <= b + |body| {
      EndInBody(s, b, body, k - b);
    } else {
      EndAcrossNewline(s, b, body, k);
    }
  }

  lemma BodyEndIs(s: string, p: nat, e: nat)
    requires p < e && Closes(s, e) && forall x: nat :: p < x < e ==> !Closes(s, x)
    ensures BodyEnd(s, p) == Some(e)
  {
    hide Closes;
  }

  lemma BlockHolds(body: string, rest: string)
    ensures Holds(Block(body) + rest, |BEGIN| + 1, body)
  {
    BlockLayout(body, rest);
  }

  /** A printed block with a well-behaved body is matched as a whole. */
  lemma BlockMatches(body: string, rest: string)
    requires Trimmed(body) && NoEndInside(body)
    ensures MatchHere(Block(body) + rest) == Some(Match(|BEGIN| + 1, |BEGIN| + 1 + |body|, |Block(body)|))
  {
    var s, b := Block(body) + rest, |BEGIN| + 1;
    BlockLayout(body, rest);
    BlockHolds(body, rest);
    BodyBegins(body, rest);
    BodyCloses(body, rest);
    hide *;
    BodyEndIsItsEnd(s, b, body);
    MatchHereIs(s, b + |body|);
  }

  lemma BodyEndIsItsEnd(s: string, b: nat, body: string)
    requires Holds(s, b, body) && Trimmed(body) && NoEndInside(body) && Closes(s, b + |body|)
    ensures BodyEnd(s, b) == Some(b + |body|)
  {
    hide Closes, BodyEnd, Holds, NoEndInside;
    forall e: nat | b < e < b + |body| ensures !Closes(s, e) {
      NothingClosesEarlier(s, b, body, e - b);
    }
    BodyEndIs(s, b, b + |body|);
  }

  lemma MatchHereIs(s: string, to: nat)
    requires At(s, 0, BEGIN) && SkipSpace(s, |BEGIN|) == |BEGIN| + 1 && BodyEnd(s, |BEGIN| + 1) == Some(to)
    requires to <= |s|
    ensures MatchHere(s) == Some(Match(|BEGIN| + 1, to, SkipSpace(s, to) + |END|))
  {
    hide SkipSpace, BodyEnd;
  }

  lemma BodiesOfBlock(body: string, rest: string)
    requires Trimmed(body) && NoEndInside(body)
    ensures Bodies(Block(body) + rest) == [body] + Bodies(rest)
  {
    BlockMatches(body, rest);
    BlockLayout(body, rest);
    assert (Block(body) + rest)[|Block(body)|..] == rest;
  }

  lemma BodiesAfterNewline(rest: string)
    ensures Bodies("\n" + rest) == Bodies(rest)
  {
    var s := "\n" + rest;
    EndHasNoNewline();
    assert s[0] == '\n' && !At(s, 0, BEGIN);
    assert s[1..] == rest;
  }

  /** What the parser can return as a body: trimmed text, or a single white-space character when nothing but
      white space stood between the labels. */
  predicate Parsed(body: string) {
    Trimmed(body) || Blank(body)
  }

  predicate Blank(body: string) {
    |body| == 1 && IsSpace(body[0])
  }

  lemma LabelCloses(s: string, k: nat)
    requires At(s, k, END)
    ensures Closes(s, k)
  {
    EndIsNotSpace(s, k);
  }

  lemma ShortestHasNoEndInside(s: string, p: nat, e: nat)
    requires BodyEnd(s, p) == Some(e)
    ensures p < e <= |s| && NoEndInside(s[p..e])
    ensures e > p + 1 ==> !IsSpace(s[e - 1])
  {
    hide Shortest, Closes, At, SkipSpace;
    forall i: nat | 1 <= i ensures !At(s[p..e], i, END) {
      if At(s[p..e], i, END) {
        LabelInside(s, p, e, i);
      }
    }
    if IsSpace(s[e - 1]) {
      ClosesBefore(s, e);
    }
  }

  lemma LabelInside(s: string, p: nat, e: nat, i: nat)
    requires p <= e <= |s| && At(s[p..e], i, END)
    ensures Closes(s, p + i) && p + i < e
  {
    hide At, Closes;
    AtInSlice(s, p, e, i, END);
    LabelCloses(s, p + i);
  }

  lemma AtInSlice(s: string, p: nat, e: nat, i: nat, m: string)
    requires p <= e <= |s| && At(s[p..e], i, m)
    ensures At(s, p + i, m) && i + |m| <= e - p
  {
    SliceOfSlice(s, p, e, i, i + |m|);
  }

  lemma ClosesBefore(s: string, e: nat)
    requires 0 < e && Closes(s, e) && IsSpace(s[e - 1])
    ensures Closes(s, e - 1)
  {
    assert SkipSpace(s, e - 1) == SkipSpace(s, e);
  }

  /** Giving back a character of white space happens only when that character is the whole body. */
  lemma GivenBackIsWhole(s: string, start: nat, p: nat, e: nat)
    requires start <= |s| && GiveBack(s, start, SkipSpace(s, start)) == Some(p) && BodyEnd(s, p) == Some(e)
    ensures p < |s| && (IsSpace(s[p]) ==> e == p + 1)
  {
    hide Shortest, GiveBack, Closes;
    if p < SkipSpace(s, start) {
      assert BodyEnd(s, p + 1).None?;
    }
  }

  lemma MatchParts(s: string)
    requires MatchHere(s).Some?
    ensures |BEGIN| <= |s| && BodyEnd(s, MatchHere(s).value.from) == Some(MatchHere(s).value.to)
    ensures GiveBack(s, |BEGIN|, SkipSpace(s, |BEGIN|)) == Some(MatchHere(s).value.from)
  {
    hide GiveBack, BodyEnd, SkipSpace;
  }

  lemma MatchedBody(s: string)
    requires MatchHere(s).Some?
    ensures var m := MatchHere(s).value; NoEndInside(s[m.from..m.to]) && Parsed(s[m.from..m.to])
  {
    hide MatchHere, GiveBack, BodyEnd, SkipSpace, NoEndInside;
    MatchParts(s);
    var m := MatchHere(s).value;
    GivenBackIsWhole(s, |BEGIN|, m.from, m.to);
    ShortestHasNoEndInside(s, m.from, m.to);
    assert s[m.from..m.to][0] == s[m.from];
  }

  /** Every body the parser returns, from any text, holds no end label after its first character. */
  lemma {:induction false} BodiesAreClean(s: string)
    ensures forall i :: 0 <= i < |Bodies(s)| ==> NoEndInside(Bodies(s)[i]) && Parsed(Bodies(s)[i])
    decreases |s|
  {
    hide MatchHere, NoEndInside, Parsed;
    if s != "" {
      var m := MatchHere(s);
      if m.Some? {
        MatchedBody(s);
        BodiesAreClean(s[m.value.end..]);
      } else {
        BodiesAreClean(s[1..]);
      }
    }
  }

  /** In a printed blank certificate three characters of white space stand between the labels. */
  lemma BlankLayout(body: string, rest: string)
    requires Blank(body)
    ensures var s, n := Block(body) + rest, |BEGIN|;
      && At(s, 0, BEGIN) && SkipSpace(s, n) == n + 3 && At(s, n + 3, END)
      && s[n + 2] == '\n' && |s| == n + 3 + |END| + |rest| && s[n + 3 + |END|..] == rest
  {
    var s, n := Block(body) + rest, |BEGIN|;
    BlockLayout(body, rest);
    assert s[n + 1] == s[n + 1..n + 2][0];
    EndIsNotSpace(s, n + 3);
    SkipSpaceIs(s, n, n + 3);
  }

  /** With no end label left after it, a blank certificate is read as the newline before its end label. */
  lemma LastBlankIsNewline(body: string)
    requires Blank(body)
    ensures Bodies(Block(body)) == ["\n"]
  {
    var s, n := Block(body), |BEGIN|;
    assert Block(body) + "" == s;
    BlankLayout(body, "");
    hide Block, Bodies, At, SkipSpace;
    NothingClosesPastTheEnd(s, n + 4);
    LabelCloses(s, n + 3);
    LastSpaceIsBody(s, n + 3);
    NoBodiesAfterMatch(s, Match(n + 2, n + 3, |s|));
    assert s[n + 2..n + 3] == "\n";
  }

  lemma NothingClosesPastTheEnd(s: string, e: nat)
    requires |s| < e + |END|
    ensures Shortest(s, e).None?
  {
    forall x: nat | e <= x ensures !Closes(s, x) {
    }
  }

  /** When nothing but white space stands between the only labels, the last character of it is the body. */
  lemma LastSpaceIsBody(s: string, p: nat)
    requires At(s, 0, BEGIN) && |BEGIN| < p == SkipSpace(s, |BEGIN|) && |s| == p + |END|
    requires Closes(s, p) && SkipSpace(s, p) == p && Shortest(s, p + 1).None?
    ensures MatchHere(s) == Some(Match(p - 1, p, |s|))
  {
    hide SkipSpace, At, Closes;
    assert BodyEnd(s, p).None?;
    assert BodyEnd(s, p - 1) == Some(p);
    assert GiveBack(s, |BEGIN|, p) == GiveBack(s, |BEGIN|, p - 1) == Some(p - 1);
  }

  lemma NoBodiesAfterMatch(s: string, m: Match)
    requires s != "" && MatchHere(s) == Some(m) && m.end == |s|
    ensures Bodies(s) == [s[m.from..m.to]]
  {
    hide MatchHere;
    assert s[|s|..] == "";
  }

  lemma AtInRest(s: string, lo: nat, k: nat)
    requires lo <= |s| && At(s[lo..], k, END)
    ensures At(s, lo + k, END)
  {
    SliceOfSlice(s, lo, |s|, k, k + |END|);
    assert s[lo..|s|] == s[lo..];
  }

  /** With a certificate after it, a blank one is not read as blank: what is read begins with its end label. */
  lemma BlankRunsOn(body: string, rest: string, k: nat)
    requires Blank(body) && At(rest, k, END) && k >= 1
    ensures Bodies(Block(body) + rest) != [] && Bodies(Block(body) + rest)[0] != body
  {
    hide Block, Bodies, At, SkipSpace, BodyEnd, Closes, MatchHere;
    var s, n := Block(body) + rest, |BEGIN|;
    BlankLayout(body, rest);
    AtInRest(s, n + 3 + |END|, k);
    EndIsNotSpace(s, n + 3);
    LabelCloses(s, n + 3 + |END| + k);
    LaterClosing(s, n + 3, n + 3 + |END| + k);
    RunsOnFrom(s, n + 3);
    FirstBody(s);
    NotTheBlank(s, n + 3, MatchHere(s).value.to, body);
  }

  lemma LaterClosing(s: string, p: nat, e: nat)
    requires p < e && Closes(s, e)
    ensures BodyEnd(s, p).Some?
  {
    hide Closes;
  }

  lemma NotTheBlank(s: string, from: nat, to: nat, body: string)
    requires from < to <= |s| && !IsSpace(s[from]) && Blank(body)
    ensures s[from..to] != body
  {
    assert s[from..to][0] == s[from];
  }

  lemma RunsOnFrom(s: string, p: nat)
    requires At(s, 0, BEGIN) && p == SkipSpace(s, |BEGIN|) && BodyEnd(s, p).Some?
    ensures MatchHere(s).Some? && MatchHere(s).value.from == p
  {
    hide SkipSpace, BodyEnd, At;
  }

  lemma FirstBody(s: string)
    requires s != "" && MatchHere(s).Some?
    ensures var m := MatchHere(s).value; Bodies(s) != [] && Bodies(s)[0] == s[m.from..m.to]
  {
    hide MatchHere;
  }

  /** A parsed body that survives printing and parsing in its place: a blank one only as a newline and last. */
  predicate Survives(bodies: seq<string>, i: nat)
    requires i < |bodies|
  {
    Blank(bodies[i]) ==> i == |bodies| - 1 && bodies[i] == "\n"
  }

  lemma JoinedEnd(bodies: seq<string>) returns (k: nat)
    requires bodies != []
    ensures At(Join(bodies), k, END)
  {
    hide Join, Block, At;
    JoinFirst(bodies);
    BlockLayout(bodies[0], AfterFirst(bodies));
    k := |BEGIN| + 2 + |bodies[0]|;
  }

  /** What follows the first printed block. */
  function AfterFirst(bodies: seq<string>): string
    requires bodies != []
  {
    if |bodies| == 1 then "" else "\n" + Join(bodies[1..])
  }

  lemma JoinFirst(bodies: seq<string>)
    requires bodies != []
    ensures Join(bodies) == Block(bodies[0]) + AfterFirst(bodies)
  {
    hide Block;
  }

  lemma OnlyBlank(body: string)
    requires Blank(body)
    ensures Bodies(Join([body])) == [body] <==> body == "\n"
  {
    LastBlankIsNewline(body);
    hide Bodies, Block;
  }

  lemma LaterEnd(others: seq<string>) returns (k: nat)
    requires others != []
    ensures k >= 1 && At("\n" + Join(others), k, END)
  {
    var j := JoinedEnd(others);
    hide Join, At;
    var s := "\n" + Join(others);
    assert s[1..] == Join(others);
    AtBehindNewline(s, j);
    k := j + 1;
  }

  lemma AtBehindNewline(s: string, j: nat)
    requires s != "" && At(s[1..], j, END)
    ensures At(s, j + 1, END)
  {
    AtInRest(s, 1, j);
  }

  lemma BlankHead(bodies: seq<string>)
    requires bodies != [] && Blank(bodies[0])
    ensures Bodies(Join(bodies)) == bodies <==> |bodies| == 1 && bodies[0] == "\n"
  {
    hide Bodies, Join, Block, At;
    if |bodies| == 1 {
      OnlyBlank(bodies[0]);
      assert bodies == [bodies[0]];
    } else {
      var k := LaterEnd(bodies[1..]);
      BlankRunsOn(bodies[0], "\n" + Join(bodies[1..]), k);
      JoinFirst(bodies);
    }
  }

  lemma TrimmedHead(bodies: seq<string>)
    requires bodies != [] && Trimmed(bodies[0]) && NoEndInside(bodies[0])
    ensures Bodies(Join(bodies)) == [bodies[0]] + Bodies(Join(bodies[1..]))
  {
    hide Block, MatchHere, NoEndInside, Trimmed;
    JoinFirst(bodies);
    BodiesOfBlock(bodies[0], AfterFirst(bodies));
    if |bodies| > 1 {
      BodiesAfterNewline(Join(bodies[1..]));
    }
  }

  lemma {:induction false} PrintedSurviveIff(bodies: seq<string>)
    requires forall i :: 0 <= i < |bodies| ==> NoEndInside(bodies[i]) && Parsed(bodies[i])
    ensures Bodies(Join(bodies)) == bodies <==> forall i: nat :: i < |bodies| ==> Survives(bodies, i)
    decreases |bodies|
  {
    hide Bodies, Join, NoEndInside;
    if bodies == [] {
      assert Bodies(Join([])) == [] by {
        JoinOfNothing();
      }
    } else if Blank(bodies[0]) {
      BlankHead(bodies);
      assert Survives(bodies, 0) <==> |bodies| == 1 && bodies[0] == "\n";
    } else {
      TrimmedHead(bodies);
      PrintedSurviveIff(bodies[1..]);
      assert bodies == [bodies[0]] + bodies[1..];
      forall i: nat | i < |bodies[1..]| ensures Survives(bodies[1..], i) <==> Survives(bodies, i + 1) {
      }
      assert Survives(bodies, 0);
      assert forall i: nat :: 0 < i < |bodies| ==> (Survives(bodies[1..], i - 1) <==> Survives(bodies, i));
    }
  }

  lemma JoinOfNothing()
    ensures Bodies(Join([])) == []
  {
  }

  /** Printing and parsing return a list of bodies, whatever it is, if and only if no body holds an end label
      after its first character, each is trimmed or blank, and only the last is blank, as a newline. */
  lemma ParseInvertsPrint(bodies: seq<string>)
    ensures Bodies(Join(bodies)) == bodies <==>
      forall i: nat :: i < |bodies| ==> NoEndInside(bodies[i]) && Parsed(bodies[i]) && Survives(bodies, i)
  {
    hide Bodies, Join, NoEndInside, Parsed, Survives;
    if Bodies(Join(bodies)) == bodies {
      BodiesAreClean(Join(bodies));
    }
    if forall i: nat :: i < |bodies| ==> NoEndInside(bodies[i]) && Parsed(bodies[i]) {
      PrintedSurviveIff(bodies);
    }
  }

  ghost predicate AllTrimmed(bodies: seq<string>) {
    forall i :: 0 <= i < |bodies| ==> Trimmed(bodies[i])
  }

  /** For trimmed bodies the end labels alone decide. */
  lemma TrimmedPrintIsParsed(bodies: seq<string>)
    requires AllTrimmed(bodies)
    ensures Bodies(Join(bodies)) == bodies <==> forall i :: 0 <= i < |bodies| ==> NoEndInside(bodies[i])
  {
    hide Bodies, Join, NoEndInside;
    ParseInvertsPrint(bodies);
    assert forall i: nat :: i < |bodies| ==> Parsed(bodies[i]) && Survives(bodies, i);
  }

  /** A space between the labels is read as the certificate, printed on a line of its own and read again as a
      newline. */
  lemma BlankCertificateExample()
    ensures Bodies(BEGIN + " " + END) == [" "] && Bodies(Join([" "])) == ["\n"]
  {
    var s, p := BEGIN + " " + END, |BEGIN| + 1;
    assert s[..|BEGIN|] == BEGIN && s[|BEGIN|] == ' ' && s[p..p + |END|] == END;
    EndIsNotSpace(s, p);
    SkipSpaceIs(s, |BEGIN|, p);
    SkipSpaceIs(s, p, p);
    hide Bodies, At, SkipSpace, Block;
    NothingClosesPastTheEnd(s, p + 1);
    LabelCloses(s, p);
    LastSpaceIsBody(s, p);
    NoBodiesAfterMatch(s, Match(p - 1, p, |s|));
    assert s[p - 1..p] == " ";
    LastBlankIsNewline(" ");
  }

  /** What was parsed once, whatever the text was, comes out the same when joined again and parsed a second
      time, if and only if no certificate in it was blank, except possibly the last one as a newline. */
  lemma ParseIsStableIff(s: string)
    ensures var bodies := Bodies(s);
      Bodies(Join(bodies)) == bodies <==>
        forall i :: 0 <= i < |bodies| && Blank(bodies[i]) ==> i == |bodies| - 1 && bodies[i] == "\n"
  {
    hide Bodies, Join;
    BodiesAreClean(s);
    PrintedSurviveIff(Bodies(s));
    assert forall i: nat :: i < |Bodies(s)| ==>
      (Survives(Bodies(s), i) <==> (Blank(Bodies(s)[i]) ==> i == |Bodies(s)| - 1 && Bodies(s)[i] == "\n"));
  }

  predicate AllSpace(s: string) {
    forall i :: 0 <= i < |s| ==> s[i] == ' ' || s[i] == '\t' || s[i] == '\n' || s[i] == '\r' || s[i] == '\U{000C}'
  }

  /** s holds white space u, the body, white space v and the end label, one after another, from position b on. */
  ghost predicate Framed(s: string, b: nat, u: string, body: string, v: string) {
    var p, e, k := b + |u|, b + |u| + |body|, b + |u| + |body| + |v|;
    && k <= |s| && s[b..p] == u && s[p..e] == body && s[e..k] == v && At(s, k, END)
  }

  lemma FrameSpaces(s: string, b: nat, u: string, body: string, v: string)
    requires Framed(s, b, u, body, v) && AllSpace(u) && AllSpace(v) && Trimmed(body)
    ensures var p, e, k := b + |u|, b + |u| + |body|, b + |u| + |body| + |v|;
      && (forall i :: b <= i < p ==> IsSpace(s[i])) && !IsSpace(s[p])
      && !IsSpace(s[e - 1]) && (forall i :: e <= i < k ==> IsSpace(s[i]))
  {
    var p, e, k := b + |u|, b + |u| + |body|, b + |u| + |body| + |v|;
    forall i | b <= i < p ensures IsSpace(s[i]) {
      assert s[i] == u[i - b];
    }
    forall i | e <= i < k ensures IsSpace(s[i]) {
      assert s[i] == v[i - e];
    }
    assert s[p] == body[0] && s[e - 1] == body[|body| - 1];
  }

  lemma Mismatch(s: string, k: nat, i: nat)
    requires k <= i < k + |END| && i < |s| && s[i] != END[i - k]
    ensures !At(s, k, END)
  {
    assert k + |END| <= |s| ==> s[k..k + |END|][i - k] == s[i];
  }

  lemma OneSpaceInLabel(j: nat)
    requires j < |END|
    ensures IsSpace(END[j]) ==> j + 1 < |END| && END[j + 1] != '-' && !IsSpace(END[j + 1])
  {
  }

  /** No end label begins in the body and reaches beyond it, if white space follows. */
  lemma NoLabelAcross(s: string, b: nat, u: string, body: string, v: string, k: nat)
    requires Framed(s, b, u, body, v) && AllSpace(u) && AllSpace(v) && v != "" && Trimmed(body)
    requires b + |u| <= k < b + |u| + |body| < k + |END|
    ensures !At(s, k, END)
  {
    hide At, IsSpace, AllSpace, Trimmed;
    FrameSpaces(s, b, u, body, v);
    var e := b + |u| + |body|;
    EndIsNotSpace(s, e + |v|);
    OneSpaceInLabel(e - k);
    Mismatch(s, k, if IsSpace(END[e - k]) then e + 1 else e);
  }

  lemma NoLabelInBody(s: string, b: nat, u: string, body: string, v: string, k: nat)
    requires Framed(s, b, u, body, v) && NoEndInside(body)
    requires b + |u| < k && k + |END| <= b + |u| + |body|
    ensures !At(s, k, END)
  {
    var p, e := b + |u|, b + |u| + |body|;
    SliceOfSlice(s, p, e, k - p, k - p + |END|);
    assert !At(body, k - p, END);
  }

  lemma FramedFits(s: string, u: string, body: string, v: string)
    requires At(s, 0, BEGIN) && Framed(s, |BEGIN|, u, body, v) && AllSpace(u) && AllSpace(v) && Trimmed(body)
    ensures var p := |BEGIN| + |u|; Fits(s, p, p + |body|, p + |body| + |v|)
  {
    FrameSpaces(s, |BEGIN|, u, body, v);
  }

  /** Whatever fits such a text with the body beginning in its place and not longer is the text as it stands. */
  lemma FitIsFrame(s: string, u: string, body: string, v: string, e: nat, k: nat)
    requires Framed(s, |BEGIN|, u, body, v) && AllSpace(u) && AllSpace(v) && v != "" && Trimmed(body) && NoEndInside(body)
    requires Fits(s, |BEGIN| + |u|, e, k) && e <= |BEGIN| + |u| + |body|
    ensures e == |BEGIN| + |u| + |body| && k == |BEGIN| + |u| + |body| + |v|
  {
    var b, last := |BEGIN|, |BEGIN| + |u| + |body|;
    FrameSpaces(s, b, u, body, v);
    EndIsNotSpace(s, k);
    EndIsNotSpace(s, last + |v|);
    hide IsSpace, At, NoEndInside, AllSpace, Trimmed;
    if e < last {
      assert k <= last - 1;
      if k + |END| <= last {
        NoLabelInBody(s, b, u, body, v, k);
      } else {
        NoLabelAcross(s, b, u, body, v, k);
      }
    }
  }

  lemma BeginsAtText(s: string, p: nat, from: nat, to: nat, k: nat)
    requires |BEGIN| <= p <= from && p < |s| && !IsSpace(s[p]) && Fits(s, from, to, k)
    ensures from == p
  {
    hide IsSpace, At;
  }

  lemma FramedMatches(s: string, u: string, body: string, v: string)
    requires At(s, 0, BEGIN) && Framed(s, |BEGIN|, u, body, v) && AllSpace(u) && AllSpace(v) && v != ""
    requires Trimmed(body) && NoEndInside(body)
    ensures var p := |BEGIN| + |u|;
      MatchHere(s) == Some(Match(p, p + |body|, p + |body| + |v| + |END|))
  {
    hide MatchHere, IsSpace, At, NoEndInside, AllSpace, Trimmed, Fits;
    var p := |BEGIN| + |u|;
    FramedFits(s, u, body, v);
    FrameSpaces(s, |BEGIN|, u, body, v);
    MatchIsPreferred(s, p, p + |body|, p + |body| + |v|);
    MatchFits(s);
    var m := MatchHere(s).value;
    BeginsAtText(s, p, m.from, m.to, m.end - |END|);
    FitIsFrame(s, u, body, v, m.to, m.end - |END|);
  }

  lemma FrameLayout(u: string, body: string, v: string, rest: string)
    ensures var s, k := BEGIN + u + body + v + END + rest, |BEGIN| + |u| + |body| + |v|;
      && At(s, 0, BEGIN) && Framed(s, |BEGIN|, u, body, v) && s[k + |END|..] == rest
      && s[|BEGIN| + |u|..|BEGIN| + |u| + |body|] == body
  {
  }

  /** Spaces, tabs, form feeds and line ends of either kind around a body do not matter, as long as there is
      some before the end label. */
  lemma WhiteSpaceIsTrimmed(u: string, body: string, v: string, rest: string)
    requires AllSpace(u) && AllSpace(v) && v != "" && Trimmed(body) && NoEndInside(body)
    ensures Bodies(BEGIN + u + body + v + END + rest) == [body] + Bodies(rest)
  {
    hide MatchHere, IsSpace, At, NoEndInside, AllSpace, Trimmed, Framed;
    FrameLayout(u, body, v, rest);
    FramedMatches(BEGIN + u + body + v + END + rest, u, body, v);
  }
}
