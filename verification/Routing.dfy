/** Spans of consecutive blocks on servers, and what the client expects of a route. */
module Routing {
  datatype Span = Span(peer: nat, start: nat, end: nat)

  /** Non-empty spans that follow one another. */
  ghost predicate Contiguous(spans: seq<Span>) {
    && (forall i :: 0 <= i < |spans| ==> spans[i].start < spans[i].end)
    && (forall i, j :: 0 <= i < j < |spans| && j == i + 1 ==> spans[i].end == spans[j].start)
  }

  /** The spans tile blocks lo .. hi in order. */
  ghost predicate Tiles(spans: seq<Span>, lo: nat, hi: nat) {
    && Contiguous(spans)
    && if spans == [] then lo == hi else spans[0].start == lo && spans[|spans| - 1].end == hi
  }

  /** What make_sequence promises: contiguous spans from lo, of which only the last reaches hi,
      possibly beyond it. */
  ghost predicate RouteOk(spans: seq<Span>, lo: nat, hi: nat) {
    && spans != [] && Contiguous(spans) && spans[0].start == lo
    && spans[|spans| - 1].end >= hi
    && forall i :: 0 <= i < |spans| - 1 ==> spans[i].end < hi
  }

  /** make_sequence could return a longer sequence: cut its last span. */
  function Clip(spans: seq<Span>, hi: nat): (r: seq<Span>)
    requires spans != []
    ensures |r| == |spans| && forall i :: 0 <= i < |spans| - 1 ==> r[i] == spans[i]
    ensures var last, cut := spans[|spans| - 1], r[|spans| - 1];
            && cut.peer == last.peer && cut.start == last.start
            && cut.end == if last.end <= hi then last.end else hi
  {
    var last := spans[|spans| - 1];
    spans[|spans| - 1 := last.(end := if last.end < hi then last.end else hi)]
  }

  lemma ClippedRouteTiles(spans: seq<Span>, lo: nat, hi: nat)
    requires RouteOk(spans, lo, hi) && lo < hi
    ensures Tiles(Clip(spans, hi), lo, hi)
  {
    if |spans| > 1 {
      assert spans[|spans| - 2].end == spans[|spans| - 1].start;
    }
  }

  lemma {:induction false} TileBounds(spans: seq<Span>, lo: nat, hi: nat, i: nat)
    requires Tiles(spans, lo, hi) && i < |spans|
    ensures lo <= spans[i].start < spans[i].end <= hi
    decreases |spans|
  {
    if |spans| > 1 {
      var front, last := spans[..|spans| - 1], spans[|spans| - 1];
      assert front[|front| - 1].end == last.start;
      assert Tiles(front, lo, last.start);
      TileBounds(front, lo, last.start, if i < |front| then i else |front| - 1);
    }
  }

  lemma TilesPop(spans: seq<Span>, lo: nat, hi: nat)
    requires Tiles(spans, lo, hi) && spans != []
    ensures var last := spans[|spans| - 1];
            Tiles(spans[..|spans| - 1], lo, last.start) && last.end == hi && lo <= last.start < last.end
  {
    TileBounds(spans, lo, hi, |spans| - 1);
    if |spans| > 1 {
      assert spans[|spans| - 2].end == spans[|spans| - 1].start;
    }
  }
}
