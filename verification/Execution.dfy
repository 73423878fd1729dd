/** A statement being read: batches as they arrive, cut or refused at the row bound. */
module Execution {
  import opened Wrappers

  /** What the source yields when polled: some rows, or a failure to read them. */
  datatype Event<R> = Batch(rows: seq<R>) | Failure

  datatype Mode = Refuse | Truncate

  datatype Error = CannotRead | TooMuchWork

  /** What a caller is handed: a batch, or why there is none. */
  type Handed<R> = Result<seq<R>, Error>

  datatype Answer<R> = Answer(batches: seq<seq<R>>, overflow: bool)

  // ---- What a source holds ----

  function RowsOf<R>(batches: seq<seq<R>>): seq<R> {
    if batches == [] then [] else RowsOf(batches[..|batches| - 1]) + batches[|batches| - 1]
  }

  /** The events before the first failure, as batches. */
  function Readable<R>(events: seq<Event<R>>): seq<seq<R>> {
    if events == [] || events[0].Failure? then [] else [events[0].rows] + Readable(events[1..])
  }

  predicate Fails<R>(events: seq<Event<R>>) {
    exists i :: 0 <= i < |events| && events[i].Failure?
  }

  /** Every row the source yields before it fails or ends. */
  function Total<R>(events: seq<Event<R>>): seq<R> {
    RowsOf(Readable(events))
  }

  /**
   What reading to the end comes to. A bound reached before a failure hides the failure: what is
   past the bound is never read.
   */
  function Outcome<R>(events: seq<Event<R>>, maxRows: nat, mode: Mode): Result<(seq<R>, bool), Error> {
    var total := Total(events);
    if |total| > maxRows then
      if mode.Refuse? then Refused(TooMuchWork) else Ok((total[..maxRows], true))
    else if Fails(events) then Refused(CannotRead)
    else Ok((total, false))
  }

  class Reading<R> {
    const maxRows: nat
    const mode: Mode
    /** What the source has yet to yield, while it is still held. */
    var stream: Option<seq<Event<R>>>
    var rows: nat
    var overflow: bool
    /** Every event the source holds, and how many of them have been asked for. */
    ghost const source: seq<Event<R>>
    ghost var polled: nat

    ghost predicate Valid()
      reads this
    {
      && polled <= |source|
      && (stream.Some? ==>
            && polled <= |Readable(source)|
            && stream.value == source[polled..]
            && rows == |RowsOf(Readable(source)[..polled])| <= maxRows
            && !overflow)
    }

    /** Set going; a request to be cut at no rows at all is planned and never run. */
    constructor (events: seq<Event<R>>, maxRows: nat, mode: Mode)
      ensures Valid() && source == events && this.maxRows == maxRows && this.mode == mode
      ensures polled == 0 && (mode.Truncate? && maxRows == 0) == overflow == stream.None?
    {
      this.maxRows, this.mode, source := maxRows, mode, events;
      var idle := mode.Truncate? && maxRows == 0;
      stream := if idle then None else Some(events);
      rows, overflow, polled := 0, idle, 0;
    }

    /**
     The next batch, cut where the row bound is. Nothing is the end, of the rows or of what the
     bound allows; once the source is let go every call is nothing, and polls nothing.
     */
    method Next() returns (r: Option<Handed<R>>)
      requires Valid()
      modifies this
      ensures Valid()
      ensures old(stream).None? ==> r.None? && unchanged(this)
      ensures old(stream).Some? && old(polled) == |source| ==> r.None? && unchanged(this)
      ensures old(stream).Some? && old(polled) < |source| ==>
                && polled == old(polled) + 1
                && match source[old(polled)]
                   case Failure => r == Some(Refused(CannotRead)) && stream.None? && !overflow && rows == old(rows)
                   case Batch(batch) =>
                     if old(rows) + |batch| <= maxRows then
                       r == Some(Ok(batch)) && stream.Some? && !overflow && rows == old(rows) + |batch|
                     else if mode.Refuse? then
                       r == Some(Refused(TooMuchWork)) && stream.None? && !overflow && rows == old(rows) + |batch|
                     else
                       && stream.None? && overflow && rows == maxRows
                       && r == if maxRows > old(rows) then Some(Ok(batch[..maxRows - old(rows)])) else None
    {
      if stream.None? || stream.value == [] {
        return None;
      }
      var event := stream.value[0];
      ReadableAt(source, polled);
      polled := polled + 1;
      if event.Failure? {
        stream := None;
        return Some(Refused(CannotRead));
      }
      var batch := event.rows;
      RowsOfNext(Readable(source), polled - 1);
      rows := rows + |batch|;
      if rows <= maxRows {
        stream := Some(stream.value[1..]);
        return Some(Ok(batch));
      }
      stream := None;
      if mode.Refuse? {
        return Some(Refused(TooMuchWork));
      }
      var kept := maxRows + |batch| - rows;
      rows := maxRows;
      overflow := true;
      return if kept > 0 then Some(Ok(batch[..kept])) else None;
    }

    /** Read every batch and keep it: exactly what the whole source comes to. */
    method Collect() returns (r: Result<Answer<R>, Error>)
      requires Valid() && polled == 0
      modifies this
      ensures old(stream).Some? ==>
                match Outcome(source, maxRows, mode)
                case Refused(why) => r == Refused(why)
                case Ok((total, cut)) => r.Ok? && RowsOf(r.value.batches) == total && r.value.overflow == cut
      ensures old(stream).None? ==> r == Ok(Answer([], old(overflow)))
    {
      var batches: seq<seq<R>> := [];
      ghost var idle := stream.None?;
      while true
        invariant Valid()
        invariant idle ==> stream.None? && batches == [] && overflow == old(overflow)
        invariant stream.Some? ==> batches == Readable(source)[..polled]
        invariant !idle && stream.None? ==>
                    && overflow && mode.Truncate?
                    && |Total(source)| > maxRows && RowsOf(batches) == Total(source)[..maxRows]
        decreases if stream.Some? then |source| - polled + 1 else 0
      {
        if stream.Some? {
          ReadToEnd(source);
          BatchAt(Readable(source), polled, maxRows);
          RowsOfPrefix(Readable(source), polled);
          if polled < |source| {
            ReadableAt(source, polled);
          }
          assert RowsOf(batches) + [] == RowsOf(batches);
        }
        var next := Next();
        if next.None? {
          break;
        }
        var batch :- next.value;
        batches := batches + [batch];
      }
      return Ok(Answer(batches, overflow));
    }
  }

  function Least(a: nat, b: nat): nat {
    if a < b then a else b
  }

  /**
   Set going and read to its end. A truncated answer is the first rows there are, as many as the
   bound allows, and says it was cut when there were more or when none were asked for; a request
   for none is answered without reading, so it meets no failure. A refused one is too long, and
   every other has all its rows.
   */
  method Run<R>(events: seq<Event<R>>, maxRows: nat, mode: Mode) returns (r: Result<Answer<R>, Error>)
    ensures mode.Truncate? ==>
              (r.Ok? <==> |Total(events)| > maxRows || maxRows == 0 || !Fails(events))
    ensures mode.Truncate? && r.Ok? ==>
              && RowsOf(r.value.batches) == Total(events)[..Least(maxRows, |Total(events)|)]
              && (r.value.overflow <==> |Total(events)| > maxRows || maxRows == 0)
    ensures mode.Refuse? ==> (r.Ok? <==> |Total(events)| <= maxRows && !Fails(events))
    ensures mode.Refuse? && r.Ok? ==> RowsOf(r.value.batches) == Total(events) && !r.value.overflow
    ensures r.Refused? ==> r.why == if |Total(events)| > maxRows then TooMuchWork else CannotRead
  {
    var reading := new Reading(events, maxRows, mode);
    r := reading.Collect();
  }

  // ---- Batches and rows ----

  lemma {:induction false} ReadableAt<R>(events: seq<Event<R>>, i: nat)
    requires i < |events| && i <= |Readable(events)|
    ensures events[i].Failure? ==> |Readable(events)| == i && Fails(events)
    ensures events[i].Batch? ==> i < |Readable(events)| && Readable(events)[i] == events[i].rows
  {
    if i > 0 {
      ReadableAt(events[1..], i - 1);
      if events[i].Failure? {
        assert events[i].Failure?;
      }
    }
  }

  lemma {:induction false} ReadToEnd<R>(events: seq<Event<R>>)
    ensures |Readable(events)| <= |events|
    ensures |Readable(events)| == |events| <==> !Fails(events)
  {
    if events != [] {
      ReadToEnd(events[1..]);
      if events[0].Batch? && Fails(events) {
        var i :| 0 <= i < |events| && events[i].Failure?;
        assert events[1..][i - 1].Failure?;
      }
      if events[0].Batch? && Fails(events[1..]) {
        var i :| 0 <= i < |events[1..]| && events[1..][i].Failure?;
        assert events[i + 1].Failure?;
      }
    }
  }

  lemma {:induction false} RowsOfNext<R>(batches: seq<seq<R>>, i: nat)
    requires i < |batches|
    ensures RowsOf(batches[..i + 1]) == RowsOf(batches[..i]) + batches[i]
  {
    assert batches[..i + 1][..i] == batches[..i];
  }

  lemma {:induction false} RowsOfPrefix<R>(batches: seq<seq<R>>, i: nat)
    requires i <= |batches|
    ensures RowsOf(batches[..i]) <= RowsOf(batches)
    decreases |batches| - i
  {
    if i < |batches| {
      RowsOfNext(batches, i);
      RowsOfPrefix(batches, i + 1);
    } else {
      assert batches[..i] == batches;
    }
  }

  /** A batch that crosses the bound, cut at it, ends the rows exactly at the bound. */
  lemma {:induction false} BatchAt<R>(batches: seq<seq<R>>, i: nat, maxRows: nat)
    requires i <= |batches| && |RowsOf(batches[..i])| <= maxRows
    ensures i == |batches| ==> RowsOf(batches[..i]) == RowsOf(batches)
    ensures i < |batches| ==> batches[..i + 1] == batches[..i] + [batches[i]]
    ensures i < |batches| && |RowsOf(batches[..i])| + |batches[i]| > maxRows ==>
              && |RowsOf(batches)| > maxRows
              && RowsOf(batches[..i]) + batches[i][..maxRows - |RowsOf(batches[..i])|] == RowsOf(batches)[..maxRows]
  {
    if i < |batches| {
      RowsOfNext(batches, i);
      RowsOfPrefix(batches, i + 1);
      var before, through, all := RowsOf(batches[..i]), RowsOf(batches[..i + 1]), RowsOf(batches);
      if |through| > maxRows {
        assert all[..maxRows] == through[..maxRows] == before + batches[i][..maxRows - |before|];
      }
    } else {
      assert batches[..i] == batches;
    }
  }
}
