/** The coloured runs drawn over the query, sliced from the text on screen now by
    spans that may have been sent for another. */

module Painted {
  import opened Utf8

  datatype Role =
    | Field | Cmp | Or | Value | Phrase | Glob | Not | UnknownField | BadValue
    | Text | Colon | Sep | Quote | Space

  datatype Span = Span(start: nat, len: nat, role: Role, not: bool)

  /** `at` counts characters, `text` is bytes. */
  datatype Run = Run(at: nat, text: seq<byte>, role: nat, not: bool)

  const PLAIN: nat := 6

  /** The ink of each role: field and operator, value, glob, negation, what the engine
      did not understand, ordinary text, and the syntax between terms. */
  function Colour(role: Role): (ink: nat)
    ensures 1 <= ink <= 7
    ensures ink == 1 <==> role in {Field, Cmp, Or}
    ensures ink == 2 <==> role in {Value, Phrase}
    ensures ink == 3 <==> role == Glob
    ensures ink == 4 <==> role == Not
    ensures ink == 5 <==> role in {UnknownField, BadValue}
    ensures ink == 6 <==> role == Text
  {
    match role
    case Field => 1 case Cmp => 1 case Or => 1
    case Value => 2 case Phrase => 2
    case Glob => 3
    case Not => 4
    case UnknownField => 5 case BadValue => 5
    case Text => 6
    case Colon => 7 case Sep => 7 case Quote => 7 case Space => 7
  }

  /// What is to be painted

  /** The ink of one byte of the query: the first span that ends past it decides, if it
      has begun by then. */
  function Ink(query: seq<byte>, spans: seq<Span>, p: nat): (nat, bool) {
    if spans == [] then (PLAIN, false)
    else if p < Floor(query, spans[0].start + spans[0].len) then
      if p >= Floor(query, spans[0].start) then (Colour(spans[0].role), spans[0].not) else (PLAIN, false)
    else Ink(query, spans[1..], p)
  }

  function Bytes(runs: seq<Run>): seq<byte> {
    if runs == [] then [] else Bytes(runs[..|runs| - 1]) + runs[|runs| - 1].text
  }

  /** The ink each byte of the runs is drawn in. */
  function Inks(runs: seq<Run>): (inks: seq<(nat, bool)>)
    ensures |inks| == |Bytes(runs)|
  {
    if runs == [] then []
    else
      var last := runs[|runs| - 1];
      Inks(runs[..|runs| - 1]) + seq(|last.text|, _ => (last.role, last.not))
  }

  /** A run is some whole characters of the query, said to begin where it does. */
  ghost predicate WellCut(s: string, r: Run, before: seq<byte>) {
    && r.text != [] && r.at == Leads(before)
    && r.at + Leads(r.text) <= |s| && r.text == Encode(s[r.at..r.at + Leads(r.text)])
  }

  ghost predicate InPlace(s: string, runs: seq<Run>) {
    forall i :: 0 <= i < |runs| ==> WellCut(s, runs[i], Bytes(runs[..i]))
  }

  /** The runs drawn so far cover the query up to `upTo`, in the right ink. */
  ghost predicate Drawn(s: string, spans: seq<Span>, runs: seq<Run>, upTo: nat) {
    var query := Encode(s);
    && upTo <= |query| && IsBoundary(query, upTo)
    && Bytes(runs) == query[..upTo]
    && InPlace(s, runs)
    && (forall p :: 0 <= p < upTo ==> Inks(runs)[p] == Ink(query, spans, p))
  }

  lemma InPlaceAdded(s: string, runs: seq<Run>, r: Run)
    requires InPlace(s, runs) && WellCut(s, r, Bytes(runs))
    ensures InPlace(s, runs + [r])
  {
    var more := runs + [r];
    forall i | 0 <= i < |more| ensures WellCut(s, more[i], Bytes(more[..i])) {
      if i < |runs| {
        assert more[i] == runs[i] && more[..i] == runs[..i];
      } else {
        assert more[i] == r && more[..i] == runs;
      }
    }
  }

  lemma OneMore(runs: seq<Run>, r: Run)
    ensures Bytes(runs + [r]) == Bytes(runs) + r.text
    ensures Inks(runs + [r]) == Inks(runs) + seq(|r.text|, _ => (r.role, r.not))
  {
  }

  lemma InksAdded(s: string, spans: seq<Span>, runs: seq<Run>, r: Run, from: nat, upTo: nat)
    requires Drawn(s, spans, runs, from) && from <= upTo && |r.text| == upTo - from
    requires forall p :: from <= p < upTo ==> Ink(Encode(s), spans, p) == (r.role, r.not)
    ensures |Inks(runs + [r])| == upTo
    ensures forall p :: 0 <= p < upTo ==> Inks(runs + [r])[p] == Ink(Encode(s), spans, p)
  {
  }

  lemma RunAdded(s: string, spans: seq<Span>, runs: seq<Run>, from: nat, upTo: nat, r: Run)
    requires Drawn(s, spans, runs, from) && from < upTo <= |Encode(s)| && IsBoundary(Encode(s), upTo)
    requires forall p :: from <= p < upTo ==> Ink(Encode(s), spans, p) == (r.role, r.not)
    requires r.at == Leads(Encode(s)[..from]) && r.text == Encode(s)[from..upTo]
    ensures Drawn(s, spans, runs + [r], upTo)
  {
    SliceIsText(s, from, upTo);
    InPlaceAdded(s, runs, r);
    OneMore(runs, r);
    InksAdded(s, spans, runs, r, from, upTo);
    assert Encode(s)[..upTo] == Encode(s)[..from] + Encode(s)[from..upTo];
  }

  /** The first `k` spans end at or before a byte. */
  ghost predicate Past(query: seq<byte>, spans: seq<Span>, k: nat, p: nat) {
    k <= |spans| && forall i :: 0 <= i < k ==> Floor(query, spans[i].start + spans[i].len) <= p
  }

  /** Spans that end at or before a byte have no say over it. */
  lemma {:induction false} PastSpans(query: seq<byte>, spans: seq<Span>, k: nat, p: nat)
    requires k <= |spans| && Past(query, spans, k, p)
    ensures Ink(query, spans, p) == Ink(query, spans[k..], p)
    decreases k
  {
    if k > 0 {
      PastSpans(query, spans[1..], k - 1, p);
      assert spans[1..][k - 1..] == spans[k..];
    } else {
      assert spans[0..] == spans;
    }
  }

  /// The program

  method Boundary(text: seq<byte>, want: nat) returns (at: nat)
    ensures at == Floor(text, want)
  {
    at := if want < |text| then want else |text|;
    while at > 0 && !(at == |text| || Lead(text[at]))
      invariant at <= |text| && Floor(text, at) == Floor(text, want)
    {
      at := at - 1;
    }
  }

  /** One more run, unless it is empty, counting its characters. */
  method Add(ghost s: string, ghost spans: seq<Span>, query: seq<byte>, runs: seq<Run>, chars: nat,
             at: nat, upTo: nat, role: nat, not: bool)
    returns (more: seq<Run>, after: nat)
    requires query == Encode(s) && Drawn(s, spans, runs, at) && chars == Leads(query[..at])
    requires at <= upTo <= |query| && IsBoundary(query, upTo)
    requires forall p :: at <= p < upTo ==> Ink(query, spans, p) == (role, not)
    ensures Drawn(s, spans, more, upTo) && after == Leads(query[..upTo])
  {
    var slice := query[at..upTo];
    if slice == [] {
      return runs, chars;
    }
    LeadsSplit(query, at, upTo);
    more := runs + [Run(chars, slice, role, not)];
    RunAdded(s, spans, runs, at, upTo, Run(chars, slice, role, not));
    after := chars + Leads(slice);
  }

  /** One span: what lies before it, plain, and then the span itself. */
  method PaintSpan(ghost s: string, query: seq<byte>, spans: seq<Span>, k: nat, runs: seq<Run>, before: nat, at: nat)
    returns (out: seq<Run>, chars: nat, end: nat)
    requires query == Encode(s) && k < |spans|
    requires Drawn(s, spans, runs, at) && before == Leads(query[..at])
    requires Past(query, spans, k, at)
    ensures Drawn(s, spans, out, end) && chars == Leads(query[..end])
    ensures Past(query, spans, k + 1, end)
  {
    out, chars := runs, before;
    var sp := spans[k];
    var start := Boundary(query, sp.start);
    end := Boundary(query, sp.start + sp.len);
    FloorRises(query, sp.start, sp.start + sp.len);
    InkHere(query, spans, k, at);
    start := if start < at then at else start;
    end := if end < start then start else end;
    if start > at {
      out, chars := Add(s, spans, query, out, chars, at, start, PLAIN, false);
    }
    out, chars := Add(s, spans, query, out, chars, start, end, Colour(sp.role), sp.not);
    PastOneMore(query, spans, k, at, end);
  }

  lemma PastOneMore(query: seq<byte>, spans: seq<Span>, k: nat, at: nat, end: nat)
    requires k < |spans| && Past(query, spans, k, at) && at <= end
    requires Floor(query, spans[k].start + spans[k].len) <= end
    ensures Past(query, spans, k + 1, end)
  {
  }

  /** Whatever the spans — stale, overlapping, out of order, or cutting a character in
      two — the runs are the query itself, cut only between characters, none empty,
      each placed by the characters before it, and every byte is in the ink of the
      first span that ends past it. */
  method Paint(ghost s: string, query: seq<byte>, spans: seq<Span>) returns (out: seq<Run>)
    requires query == Encode(s)
    ensures Bytes(out) == query
    ensures InPlace(s, out)
    ensures forall p :: 0 <= p < |query| ==> Inks(out)[p] == Ink(query, spans, p)
  {
    out := [];
    var chars := 0;
    var at: nat := 0;
    for k := 0 to |spans|
      invariant Drawn(s, spans, out, at) && chars == Leads(query[..at])
      invariant Past(query, spans, k, at)
    {
      out, chars, at := PaintSpan(s, query, spans, k, out, chars, at);
    }
    out := PaintRest(s, query, spans, out, chars, at);
    AllDrawn(s, spans, out);
  }

  /** The rest of the query, past every span, drawn plain. */
  method PaintRest(ghost s: string, query: seq<byte>, spans: seq<Span>, runs: seq<Run>, chars: nat, at: nat)
    returns (out: seq<Run>)
    requires query == Encode(s)
    requires Drawn(s, spans, runs, at) && chars == Leads(query[..at]) && Past(query, spans, |spans|, at)
    ensures Drawn(s, spans, out, |query|)
  {
    out := runs;
    if at < |query| {
      InkLeft(query, spans, at);
      var after;
      out, after := Add(s, spans, query, out, chars, at, |query|, PLAIN, false);
    }
  }

  lemma AllDrawn(s: string, spans: seq<Span>, runs: seq<Run>)
    requires Drawn(s, spans, runs, |Encode(s)|)
    ensures Bytes(runs) == Encode(s) && InPlace(s, runs)
    ensures forall p :: 0 <= p < |Encode(s)| ==> Inks(runs)[p] == Ink(Encode(s), spans, p)
  {
  }

  /** Past every span the ink is plain. */
  lemma InkLeft(query: seq<byte>, spans: seq<Span>, at: nat)
    requires Past(query, spans, |spans|, at)
    ensures forall p: nat :: at <= p ==> Ink(query, spans, p) == (PLAIN, false)
  {
    forall p: nat | at <= p ensures Ink(query, spans, p) == (PLAIN, false) {
      PastSpans(query, spans, |spans|, p);
    }
  }

  lemma LeadsSplit(query: seq<byte>, a: nat, b: nat)
    requires a <= b <= |query|
    ensures Leads(query[..b]) == Leads(query[..a]) + Leads(query[a..b])
  {
    assert query[..b] == query[..a] + query[a..b];
    LeadsConcat(query[..a], query[a..b]);
  }

  /** The ink of the bytes the next span is the first to end past. */
  lemma InkHere(query: seq<byte>, spans: seq<Span>, k: nat, at: nat)
    requires k < |spans|
    requires Past(query, spans, k, at)
    ensures var sp := spans[k];
            var from, upTo := Floor(query, sp.start), Floor(query, sp.start + sp.len);
            forall p :: at <= p < upTo ==>
              Ink(query, spans, p) == if p >= from then (Colour(sp.role), sp.not) else (PLAIN, false)
  {
    var sp := spans[k];
    var from, upTo := Floor(query, sp.start), Floor(query, sp.start + sp.len);
    forall p | at <= p < upTo
      ensures Ink(query, spans, p) == if p >= from then (Colour(sp.role), sp.not) else (PLAIN, false)
    {
      PastSpans(query, spans, k, p);
      assert spans[k..][0] == sp;
    }
  }

  /** Runs in place are the query's own characters, each drawn in one run. */
  lemma {:induction false} RunsAreTheQuery(s: string, runs: seq<Run>)
    requires InPlace(s, runs)
    ensures Leads(Bytes(runs)) <= |s| && Bytes(runs) == Encode(s[..Leads(Bytes(runs))])
  {
    if runs == [] {
      assert s[..0] == "";
    } else {
      var n := |runs| - 1;
      FirstInPlace(s, runs, n);
      RunsAreTheQuery(s, runs[..n]);
      OneRunMore(s, Bytes(runs[..n]), runs[n]);
    }
  }

  lemma FirstInPlace(s: string, runs: seq<Run>, n: nat)
    requires InPlace(s, runs) && n < |runs|
    ensures InPlace(s, runs[..n]) && WellCut(s, runs[n], Bytes(runs[..n]))
  {
    forall i | 0 <= i < n ensures WellCut(s, runs[..n][i], Bytes(runs[..n][..i])) {
      assert runs[..n][..i] == runs[..i];
    }
  }

  lemma OneRunMore(s: string, before: seq<byte>, run: Run)
    requires run.at == Leads(before) && run.at + Leads(run.text) <= |s|
    requires before == Encode(s[..run.at]) && run.text == Encode(s[run.at..run.at + Leads(run.text)])
    ensures Leads(before + run.text) == run.at + Leads(run.text)
    ensures before + run.text == Encode(s[..run.at + Leads(run.text)])
  {
    var a, b := run.at, run.at + Leads(run.text);
    LeadsConcat(before, run.text);
    assert s[..b] == s[..a] + s[a..b];
    EncodeConcat(s[..a], s[a..b]);
  }
}
