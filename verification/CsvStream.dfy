/**
 * Sending an export over a connection that can fail at any await: a download
 * that ends normally is the whole file, and every other one is visibly broken.
 */
module CsvStream {
  import opened Wrappers
  import opened Csv
  import opened Keyset

  // ---- what can happen while the stream waits -------------------------------------------

  /** An event of the response stream. An error may or may not have destroyed it. */
  datatype Event = Drain | Close | Error(message: string, destroys: bool)

  datatype Fault = ClosedMidExport | SocketFault(message: string) | SourceFault(message: string) | HookFault(message: string)

  predicate Kills(e: Event) { e.Close? || (e.Error? && e.destroys) }

  ghost predicate Calm(events: seq<Event>) { forall e :: e in events ==> e.Drain? }

  function FaultOf(e: Event): Option<Fault> {
    match e
    case Drain => None
    case Close => Some(ClosedMidExport)
    case Error(message, _) => Some(SocketFault(message))
  }

  function FirstFault(events: seq<Event>): Option<Fault> {
    if events == [] then None
    else
      var front := FirstFault(events[..|events| - 1]);
      if front.Some? then front else FaultOf(events[|events| - 1])
  }

  /** The failure of the first event that is not a drain. */
  ghost predicate IsFirstFault(events: seq<Event>, fault: Option<Fault>) {
    exists i :: 0 <= i < |events| && Calm(events[..i]) && !events[i].Drain? && fault == FaultOf(events[i])
  }

  lemma {:induction false} FirstFaultIsFirst(events: seq<Event>)
    ensures FirstFault(events).None? <==> Calm(events)
    ensures FirstFault(events).Some? ==> IsFirstFault(events, FirstFault(events))
  {
    if events == [] {
    } else {
      var n := |events| - 1;
      FirstFaultIsFirst(events[..n]);
      assert events == events[..n] + [events[n]];
      if FirstFault(events[..n]).Some? {
        var i :| 0 <= i < n && Calm(events[..n][..i]) && !events[i].Drain? && FirstFault(events) == FaultOf(events[i]);
        assert events[..n][..i] == events[..i];
      }
    }
  }

  /**
   * One write: whether the socket was full, what was emitted before the
   * listeners were attached, and what was emitted by the time the await is over.
   */
  datatype Flow = Flow(full: bool, atOnce: seq<Event>, later: seq<Event>) {
    /** A write to a full socket settles on an event, or on finding the socket already gone. */
    predicate Settles() { full ==> later != [] || exists i :: 0 <= i < |atOnce| && Kills(atOnce[i]) }

    ghost predicate IsCalm() { Calm(atOnce) && Calm(later) }
  }

  /** The batches an export yields, and what it throws after them, if anything. */
  datatype Source<T> = Source(batches: seq<seq<T>>, failure: Option<string>)

  /** What the connection does: during the header write, each fetch, each batch's write. */
  datatype Script = Script(header: Flow, fetches: seq<seq<Event>>, writes: seq<Flow>)

  /** The caller's onComplete: what it throws, and what happens meanwhile. */
  datatype Hook = Hook(failure: Option<string>, events: seq<Event>)

  datatype Outcome = Outcome(rows: nat, error: Option<Fault>, recorded: bool)

  const MARKER_TEXT := "EXPORT FAILED PART WAY THROUGH - " + "THIS FILE IS INCOMPLETE - DO NOT USE IT"
  const MARKER := "\"" + MARKER_TEXT + "\""

  function MarkerChunk(): string { CRLF + MARKER + CRLF }

  /** What a response holds after accepting these writes. */
  function Bytes(writes: seq<string>): string {
    if writes == [] then "" else Bytes(writes[..|writes| - 1]) + writes[|writes| - 1]
  }

  lemma BytesOfOneMore(writes: seq<string>, chunk: string)
    ensures Bytes(writes + [chunk]) == Bytes(writes) + chunk
  {
    assert (writes + [chunk])[..|writes|] == writes;
  }

  /** A file cut short: with the marker, if it could still be sent. */
  predicate IsPartial(bytes: string, written: string) { bytes == written || bytes == written + MarkerChunk() }

  // ---- the connection ---------------------------------------------------------------------

  /** The response, with the two listeners held for the whole stream. */
  class Response {
    var writes: seq<string>
    var ended: bool
    var destroyed: bool
    var socketError: Option<Fault>

    constructor ()
      ensures writes == [] && !ended && !destroyed && socketError == None
    {
      writes, ended, destroyed, socketError := [], false, false, None;
    }

    /** Both listeners keep the first failure. */
    method Happen(events: seq<Event>)
      modifies this`destroyed, this`socketError
      ensures socketError.None? <==> old(socketError).None? && Calm(events)
      ensures old(socketError).Some? ==> socketError == old(socketError)
      ensures old(socketError).None? && socketError.Some? ==> IsFirstFault(events, socketError)
      ensures destroyed <==> old(destroyed) || exists i :: 0 <= i < |events| && Kills(events[i])
      ensures (old(destroyed) ==> old(socketError).Some?) ==> destroyed ==> socketError.Some?
    {
      for i := 0 to |events|
        invariant socketError == if old(socketError).Some? then old(socketError) else FirstFault(events[..i])
        invariant destroyed <==> old(destroyed) || exists k :: 0 <= k < i && Kills(events[k])
        invariant (old(destroyed) ==> old(socketError).Some?) ==> destroyed ==> socketError.Some?
      {
        assert events[..i + 1][..i] == events[..i];
        if Kills(events[i]) { destroyed := true; }
        if socketError.None? { socketError := FaultOf(events[i]); }
      }
      assert events[..|events|] == events;
      FirstFaultIsFirst(events);
    }

    method WriteChunk(chunk: string, flow: Flow) returns (failure: Option<Fault>)
      requires flow.Settles()
      modifies this`writes, this`destroyed, this`socketError
      // A stream already gone is not written to.
      ensures old(destroyed) || old(ended) ==> failure == Some(ClosedMidExport) && unchanged(this)
      ensures !old(destroyed) && !old(ended) ==> writes == old(writes) + [chunk]
      ensures !old(destroyed) && !old(ended) && flow.IsCalm() ==> failure == None
      ensures failure.None? ==> (socketError.None? <==> old(socketError).None? && flow.IsCalm())
      ensures failure.Some? && !old(destroyed) && !old(ended) ==> socketError.Some?
      ensures (old(destroyed) ==> old(socketError).Some?) ==> destroyed ==> socketError.Some?
    {
      if destroyed || ended { return Some(ClosedMidExport); }
      writes := writes + [chunk];
      Happen(flow.atOnce);
      var gone := destroyed;
      if gone {
        ghost var i :| 0 <= i < |flow.atOnce| && Kills(flow.atOnce[i]);
        assert flow.atOnce[i] in flow.atOnce;
      }
      Happen(flow.later);
      if !flow.full {
        failure := None;
      } else if gone {
        failure := Some(ClosedMidExport);
      } else {
        assert flow.later[0] in flow.later;
        failure := FaultOf(flow.later[0]);
      }
    }

    /** Both ways out of an abort, the flushed marker and the timer, destroy the stream. */
    method AbortPartialExport()
      modifies this`writes, this`destroyed
      ensures old(destroyed) || old(ended) ==> unchanged(this)
      ensures !old(destroyed) && !old(ended) ==> destroyed && writes == old(writes) + [MarkerChunk()]
    {
      if destroyed || ended { return; }
      writes := writes + [MarkerChunk()];
      destroyed := true;
    }

    method End()
      modifies this`ended
      ensures ended
    {
      ended := true;
    }
  }

  // ---- what was sent -------------------------------------------------------------------------

  function RowCount<T>(batches: seq<seq<T>>, n: nat): nat
    requires n <= |batches|
  {
    if n == 0 then 0 else RowCount(batches, n - 1) + |batches[n - 1]|
  }

  lemma {:induction false} RowCountIsExact<T>(batches: seq<seq<T>>, n: nat)
    requires n <= |batches|
    ensures RowCount(batches, n) == |Flat(batches, n)|
  {
    if n == 0 {
    } else {
      RowCountIsExact(batches, n - 1);
    }
  }

  function Chunk(lines: seq<string>): string { Join(lines, CRLF) + CRLF }

  /** The writes once the first `n` batches are sent: a batch with no rows adds none. */
  function Written(start: seq<string>, batches: seq<seq<string>>, n: nat): seq<string>
    requires n <= |batches|
  {
    if n == 0 then start
    else if batches[n - 1] == [] then Written(start, batches, n - 1)
    else Written(start, batches, n - 1) + [Chunk(batches[n - 1])]
  }

  lemma AppendToTail(whole: string, head: string, tail: string, more: string)
    requires whole == head + tail
    ensures whole + more == head + (tail + more)
  {
  }

  ghost predicate IsPrinted(start: seq<string>, batches: seq<seq<string>>, n: nat)
    requires n <= |batches|
  {
    Bytes(Written(start, batches, n)) == Bytes(start) + Lines(Flat(batches, n))
  }

  lemma PrintedStep(start: seq<string>, batches: seq<seq<string>>, n: nat)
    requires 0 < n <= |batches| && IsPrinted(start, batches, n - 1)
    ensures IsPrinted(start, batches, n)
  {
    var writes, chunk := Written(start, batches, n - 1), Chunk(batches[n - 1]);
    if batches[n - 1] == [] {
      assert Flat(batches, n) == Flat(batches, n - 1);
    } else {
      JoinedLines(batches[n - 1]);
      LinesConcat(Flat(batches, n - 1), batches[n - 1]);
      BytesOfOneMore(writes, chunk);
      AppendToTail(Bytes(writes), Bytes(start), Lines(Flat(batches, n - 1)), chunk);
    }
  }

  /** However the lines are cut into batches, the chunks together are the lines printed at once. */
  lemma {:induction false} WrittenIsPrinted(start: seq<string>, batches: seq<seq<string>>, n: nat)
    requires n <= |batches|
    ensures IsPrinted(start, batches, n)
  {
    if n == 0 {
      assert Bytes(start) + "" == Bytes(start);
    } else {
      WrittenIsPrinted(start, batches, n - 1);
      PrintedStep(start, batches, n);
    }
  }

  // ---- the stream -------------------------------------------------------------------------------

  predicate WellFormed<T>(script: Script, source: Source<T>) {
    && |script.fetches| == |source.batches| + 1
    && |script.writes| == |source.batches|
    && script.header.Settles()
    && forall f :: f in script.writes ==> f.Settles()
  }

  /** Nothing but drains while batch `i` is fetched and, when there is anything to write, written. */
  ghost predicate CalmAt(script: Script, source: Source<string>, i: nat)
    requires WellFormed(script, source) && i < |source.batches|
  {
    Calm(script.fetches[i]) && (source.batches[i] != [] ==> script.writes[i].IsCalm())
  }

  /** Nothing but drains while the first `n` batches are fetched and written. */
  ghost predicate CalmUpTo(script: Script, source: Source<string>, n: nat)
    requires WellFormed(script, source) && n <= |source.batches|
  {
    n == 0 || (CalmUpTo(script, source, n - 1) && CalmAt(script, source, n - 1))
  }

  /** Every batch is fetched and written, and the connection outlives the last fetch. */
  ghost predicate RowsDelivered(script: Script, source: Source<string>)
    requires WellFormed(script, source)
  {
    && CalmUpTo(script, source, |source.batches|)
    && Calm(script.fetches[|source.batches|])
    && source.failure.None?
  }

  /** The export gets as far as the hook. */
  ghost predicate Delivered(script: Script, source: Source<string>)
    requires WellFormed(script, source)
  {
    script.header.IsCalm() && RowsDelivered(script, source)
  }

  ghost predicate Completed(script: Script, source: Source<string>, hook: Option<Hook>)
    requires WellFormed(script, source)
  {
    Delivered(script, source) && (hook.Some? ==> hook.value.failure.None? && Calm(hook.value.events))
  }

  lemma {:induction false} CalmBefore(script: Script, source: Source<string>, n: nat, m: nat)
    requires WellFormed(script, source) && n <= m <= |source.batches| && CalmUpTo(script, source, m)
    ensures CalmUpTo(script, source, n)
  {
    if n == m {
    } else {
      CalmBefore(script, source, n, m - 1);
    }
  }

  lemma NotCalmThroughout(script: Script, source: Source<string>, n: nat)
    requires WellFormed(script, source) && n < |source.batches|
    requires !CalmUpTo(script, source, n) || !CalmAt(script, source, n)
    ensures !CalmUpTo(script, source, |source.batches|)
  {
    if CalmUpTo(script, source, |source.batches|) { CalmBefore(script, source, n + 1, |source.batches|); }
  }

  /** One turn of the loop over the batches. */
  method WriteBatch(out: Response, source: Source<string>, script: Script, i: nat)
    returns (failure: Option<Fault>, ghost wrote: bool)
    requires WellFormed(script, source) && i < |source.batches|
    requires !out.ended && (out.destroyed ==> out.socketError.Some?)
    modifies out`writes, out`destroyed, out`socketError
    ensures out.destroyed ==> out.socketError.Some?
    ensures failure.None? ==> old(out.socketError).None? && wrote
    ensures failure.None? ==> (out.socketError.None? <==> CalmAt(script, source, i))
    ensures failure.Some? ==> old(out.socketError).Some? || !CalmAt(script, source, i)
    ensures out.writes == if wrote && source.batches[i] != [] then old(out.writes) + [Chunk(source.batches[i])]
                          else old(out.writes)
  {
    wrote := false;
    out.Happen(script.fetches[i]);
    if out.socketError.Some? { return out.socketError, wrote; }
    wrote := true;
    if source.batches[i] == [] { return None, wrote; }
    assert script.writes[i] in script.writes;
    failure := out.WriteChunk(Chunk(source.batches[i]), script.writes[i]);
  }

  /** The fetch that says there are no more batches, or throws. */
  method LastFetch(out: Response, source: Source<string>, script: Script) returns (failure: Option<Fault>)
    requires WellFormed(script, source) && (out.destroyed ==> out.socketError.Some?)
    modifies out`destroyed, out`socketError
    ensures failure.None? <==> && old(out.socketError).None? && Calm(script.fetches[|source.batches|])
                               && source.failure.None?
    ensures failure.None? ==> !out.destroyed && out.socketError.None?
  {
    out.Happen(script.fetches[|source.batches|]);
    failure := if source.failure.Some? then Some(SourceFault(source.failure.value)) else out.socketError;
  }

  /** What one more batch adds. */
  lemma OneMoreBatch(script: Script, source: Source<string>, start: seq<string>, i: nat)
    requires WellFormed(script, source) && i < |source.batches|
    ensures RowCount(source.batches, i + 1) == RowCount(source.batches, i) + |source.batches[i]|
    ensures CalmUpTo(script, source, i + 1) <==> CalmUpTo(script, source, i) && CalmAt(script, source, i)
    ensures Written(start, source.batches, i + 1)
            == if source.batches[i] == [] then Written(start, source.batches, i)
               else Written(start, source.batches, i) + [Chunk(source.batches[i])]
  {
  }

  /** The loop over the batches. */
  method WriteBatches(out: Response, source: Source<string>, script: Script, ghost start: seq<string>)
    returns (rows: nat, failure: Option<Fault>, ghost sent: nat)
    requires WellFormed(script, source) && !out.ended && (out.destroyed ==> out.socketError.Some?)
    requires out.writes == start
    modifies out`writes, out`destroyed, out`socketError
    ensures out.destroyed ==> out.socketError.Some?
    ensures failure.None? ==> sent == |source.batches| && rows == RowCount(source.batches, sent)
    ensures failure.None? ==>
              (out.socketError.None? <==> old(out.socketError).None? && CalmUpTo(script, source, |source.batches|))
    ensures failure.Some? ==> old(out.socketError).Some? || !CalmUpTo(script, source, |source.batches|)
    ensures sent <= |source.batches| && rows <= RowCount(source.batches, sent)
    ensures out.writes == Written(start, source.batches, sent)
  {
    rows, failure, sent := 0, None, 0;
    for i := 0 to |source.batches|
      invariant sent == i && rows == RowCount(source.batches, i) && failure.None?
      invariant out.destroyed ==> out.socketError.Some?
      invariant out.socketError.None? <==> old(out.socketError).None? && CalmUpTo(script, source, i)
      invariant out.writes == Written(start, source.batches, i)
    {
      ghost var wrote;
      failure, wrote := WriteBatch(out, source, script, i);
      OneMoreBatch(script, source, start, i);
      if wrote { sent := i + 1; }
      if failure.Some? {
        if old(out.socketError).None? { NotCalmThroughout(script, source, i); }
        return;
      }
      rows := rows + |source.batches[i]|;
    }
  }

  /** The batches, then the check after the last fetch. */
  method WriteRows(out: Response, source: Source<string>, script: Script, ghost start: seq<string>)
    returns (rows: nat, failure: Option<Fault>, ghost sent: nat)
    requires WellFormed(script, source) && !out.ended && (out.destroyed ==> out.socketError.Some?)
    requires out.writes == start
    modifies out`writes, out`destroyed, out`socketError
    ensures failure.None? <==> old(out.socketError).None? && RowsDelivered(script, source)
    ensures failure.None? ==> !out.destroyed && out.socketError.None?
    ensures failure.None? ==> sent == |source.batches| && rows == RowCount(source.batches, sent)
    ensures sent <= |source.batches| && rows <= RowCount(source.batches, sent)
    ensures out.writes == Written(start, source.batches, sent)
  {
    rows, failure, sent := WriteBatches(out, source, script, start);
    if failure.None? { failure := LastFetch(out, source, script); }
  }

  /** The header, then the rows. */
  method WriteFile(out: Response, header: string, source: Source<string>, script: Script)
    returns (rows: nat, failure: Option<Fault>, ghost sent: nat)
    requires WellFormed(script, source) && !out.ended
    modifies out`writes, out`destroyed, out`socketError
    ensures failure.None? <==> !old(out.destroyed) && old(out.socketError).None? && Delivered(script, source)
    ensures failure.None? ==> !out.destroyed && out.socketError.None?
    ensures old(out.destroyed) ==> out.destroyed && out.writes == old(out.writes)
    ensures failure.None? ==> sent == |source.batches| && rows == RowCount(source.batches, sent)
    ensures sent <= |source.batches| && rows <= RowCount(source.batches, sent)
    ensures !old(out.destroyed) ==> out.writes == Written(old(out.writes) + [header], source.batches, sent)
  {
    rows, sent := 0, 0;
    failure := out.WriteChunk(header, script.header);
    if failure.None? {
      rows, failure, sent := WriteRows(out, source, script, out.writes);
    }
  }

  /** The hook, if any, and the last look at the socket before the response is ended. */
  method RunHook(out: Response, onComplete: Option<Hook>) returns (failure: Option<Fault>, recorded: bool)
    requires !out.destroyed && out.socketError.None?
    modifies out`destroyed, out`socketError
    ensures recorded <==> onComplete.Some? && onComplete.value.failure.None?
    ensures failure.None? <==> onComplete.Some? ==> recorded && Calm(onComplete.value.events)
    ensures failure.None? ==> !out.destroyed
  {
    recorded := false;
    if onComplete.None? { return None, false; }
    out.Happen(onComplete.value.events);
    if onComplete.value.failure.Some? { return Some(HookFault(onComplete.value.failure.value)), false; }
    return out.socketError, true;
  }

  predicate CutShort(writes: seq<string>, written: seq<string>) {
    writes == written || writes == written + [MarkerChunk()]
  }

  /** The `try`, what follows it, and the `catch`. */
  method StreamLines(out: Response, header: string, source: Source<string>, script: Script, onComplete: Option<Hook>)
    returns (o: Outcome, ghost sent: nat)
    requires WellFormed(script, source) && !out.ended
    modifies out
    ensures out.ended <==> !old(out.destroyed) && Completed(script, source, onComplete)
    ensures out.ended <==> o.error.None?
    ensures !out.ended ==> out.destroyed
    ensures o.recorded <==> && onComplete.Some? && onComplete.value.failure.None?
                            && !old(out.destroyed) && Delivered(script, source)
    ensures sent <= |source.batches| && o.rows <= RowCount(source.batches, sent)
    ensures out.ended ==> sent == |source.batches| && o.rows == RowCount(source.batches, sent)
    ensures out.ended ==> out.writes == Written(old(out.writes) + [header], source.batches, sent)
    ensures old(out.destroyed) ==> out.writes == old(out.writes)
    ensures !old(out.destroyed) ==> CutShort(out.writes, Written(old(out.writes) + [header], source.batches, sent))
  {
    out.socketError := None;
    var rows, failure;
    rows, failure, sent := WriteFile(out, header, source, script);
    var recorded := false;
    if failure.None? {
      failure, recorded := RunHook(out, onComplete);
    }
    if failure.None? {
      out.End();
    } else {
      out.AbortPartialExport();
    }
    return Outcome(rows, failure, recorded), sent;
  }

  // ---- from rows to lines ---------------------------------------------------------------------

  function HeaderChunk<T>(columns: seq<Column<T>>): string { [BOM] + CsvHeader(columns) + CRLF }

  function RenderedBatches<T>(columns: seq<Column<T>>, batches: seq<seq<T>>): (r: seq<seq<string>>)
    ensures |r| == |batches|
    ensures forall i :: 0 <= i < |r| ==> r[i] == CsvRows(batches[i], columns)
  {
    if batches == [] then [] else [CsvRows(batches[0], columns)] + RenderedBatches(columns, batches[1..])
  }

  function Rendered<T>(columns: seq<Column<T>>, source: Source<T>): (r: Source<string>)
    ensures |r.batches| == |source.batches|
  {
    Source(RenderedBatches(columns, source.batches), source.failure)
  }

  lemma {:induction false} RenderedFlat<T>(columns: seq<Column<T>>, batches: seq<seq<T>>, n: nat)
    requires n <= |batches|
    ensures Flat(RenderedBatches(columns, batches), n) == CsvRows(Flat(batches, n), columns)
  {
    if n == 0 {
    } else {
      RenderedFlat(columns, batches, n - 1);
      CsvRowsConcat(Flat(batches, n - 1), batches[n - 1], columns);
    }
  }

  /** However the rows are cut into batches, the writes together are the file printed at once. */
  lemma ChunksAreTheFile<T>(before: seq<string>, columns: seq<Column<T>>, batches: seq<seq<T>>, n: nat)
    requires n <= |batches|
    ensures Bytes(Written(before + [HeaderChunk(columns)], RenderedBatches(columns, batches), n))
            == Bytes(before) + ToCsv(Flat(batches, n), columns)
  {
    var start := before + [HeaderChunk(columns)];
    WrittenIsPrinted(start, RenderedBatches(columns, batches), n);
    RenderedFlat(columns, batches, n);
    BytesOfOneMore(before, HeaderChunk(columns));
    AsLines(Flat(batches, n), columns);
    Associative(Bytes(before), HeaderChunk(columns), Lines(CsvRows(Flat(batches, n), columns)));
  }

  lemma RowsCounted<T>(columns: seq<Column<T>>, batches: seq<seq<T>>, n: nat)
    requires n <= |batches|
    ensures RowCount(RenderedBatches(columns, batches), n) == |Flat(batches, n)|
  {
    RowCountIsExact(RenderedBatches(columns, batches), n);
    RenderedFlat(columns, batches, n);
  }

  // ---- the whole download ---------------------------------------------------------------------

  /**
   * A download is ended normally exactly when every fetch, write and check went
   * well, and then it is the whole file; any other is aborted, and reported.
   */
  method StreamCsv<T>(out: Response, columns: seq<Column<T>>, source: Source<T>, script: Script,
                      onComplete: Option<Hook>)
    returns (o: Outcome, ghost sent: nat)
    requires WellFormed(script, source) && !out.ended
    modifies out
    ensures out.ended <==> !old(out.destroyed) && Completed(script, Rendered(columns, source), onComplete)
    ensures out.ended <==> o.error.None?
    ensures out.ended ==> && sent == |source.batches| && o.rows == |Flat(source.batches, sent)|
                          && Bytes(out.writes) == Bytes(old(out.writes)) + ToCsv(Flat(source.batches, sent), columns)
    ensures !out.ended ==> out.destroyed
    ensures o.recorded <==> && onComplete.Some? && onComplete.value.failure.None?
                            && !old(out.destroyed) && Delivered(script, Rendered(columns, source))
    // What an unfinished download holds: whole batches, then the marker if it could still be sent.
    ensures sent <= |source.batches| && o.rows <= |Flat(source.batches, sent)|
    ensures old(out.destroyed) ==> out.writes == old(out.writes)
    ensures !out.ended && !old(out.destroyed) ==>
              IsPartial(Bytes(out.writes), Bytes(old(out.writes)) + ToCsv(Flat(source.batches, sent), columns))
  {
    ghost var before := out.writes;
    o, sent := StreamLines(out, HeaderChunk(columns), Rendered(columns, source), script, onComplete);
    RowsCounted(columns, source.batches, sent);
    ChunksAreTheFile(before, columns, source.batches, sent);
    BytesOfOneMore(Written(before + [HeaderChunk(columns)], Rendered(columns, source).batches, sent), MarkerChunk());
  }

  /**
   * End to end: the file of a cleanly ended download of a table nobody changed
   * reads back as the headers and, newest first, the texts of every row once.
   */
  lemma CleanDownloadOfStaticTable<T(!new)>(columns: seq<Column<Row<T>>>, table: seq<Row<T>>, size: nat,
                                            batches: seq<seq<Row<T>>>)
    requires UniqueKeys(table) && size > 0 && columns != []
    requires Exported(_ => table, size, batches)
    ensures ParseDocument(ToCsv(Flat(batches, |batches|), columns))
            == Some([Texts(Headers(columns))] + RowTexts(OrderDescending(table), columns))
  {
    StaticExportIsTheSort(table, size, batches);
    CsvRoundTrip(OrderDescending(table), columns);
  }

  // ---- what an aborted file looks like -------------------------------------------------------------

  /** The file an unfinished download may leave behind reads as its rows, a blank line and the marker. */
  lemma AbortedFileReadsAsMarked<T>(columns: seq<Column<T>>, rows: seq<T>)
    requires columns != []
    ensures ParseDocument(ToCsv(rows, columns) + MarkerChunk())
            == Some([Texts(Headers(columns))] + (RowTexts(rows, columns) + [[""], [MARKER_TEXT]]))
  {
    var tail := MarkerChunk();
    var lines, rest := Lines(CsvRows(rows, columns)), Lines(CsvRows(rows, columns)) + tail;
    TailReadsAsMarker();
    RowsThenTail(rows, columns, tail, [[""], [MARKER_TEXT]]);
    RecordRoundTrip(Headers(columns), rest);
    RecordThenFile(CsvHeader(columns), rest, Texts(Headers(columns)),
                   RowTexts(rows, columns) + [[""], [MARKER_TEXT]]);
    AsLines(rows, columns);
    Associative(HeaderChunk(columns), lines, tail);
  }

  lemma TailReadsAsMarker()
    ensures ParseFile(MarkerChunk()) == Some([[""], [MARKER_TEXT]])
  {
    assert '"' !in "EXPORT FAILED PART WAY THROUGH - ";
    assert '"' !in "THIS FILE IS INCOMPLETE - DO NOT USE IT";
    QuotedLineReadsBack(MARKER_TEXT);
    BlankThenQuoted("\"" + MARKER_TEXT + "\"", MARKER_TEXT);
  }

  lemma QuotedLineReadsBack(t: string)
    requires '"' !in t
    ensures ParseRecord("\"" + t + "\"" + CRLF) == Some(([t], ""))
  {
    var body := t + "\"" + CRLF;
    var line := "\"" + body;
    UnquotedIsNotDoubled(t);
    EscapedRoundTrip(t, CRLF);
    assert line[1..] == body;
    assert ParseField(line) == Some((t, CRLF));
    assert "\"" + t + "\"" + CRLF == line;
  }

  lemma BlankThenQuoted(quoted: string, t: string)
    requires ParseRecord(quoted + CRLF) == Some(([t], ""))
    ensures ParseFile(CRLF + quoted + CRLF) == Some([[""], [t]])
  {
    var rest := quoted + CRLF;
    var s := CRLF + rest;
    assert s[2..] == rest && s[..2] == CRLF;
    assert ParseField(s) == Some(("", s));
    assert ParseFile("") == Some([]);
    assert ParseFile(rest) == Some([[t]] + []);
    assert [[t]] + [] == [[t]] && [[""]] + [[t]] == [[""], [t]];
    assert CRLF + quoted + CRLF == s;
  }

  lemma {:induction false} UnquotedIsNotDoubled(t: string)
    requires '"' !in t
    ensures Doubled(t) == t
  {
    if t == "" {
    } else {
      UnquotedIsNotDoubled(t[1..]);
      assert [t[0]] + t[1..] == t;
    }
  }

  lemma {:induction false} RowsThenTail<T>(rows: seq<T>, columns: seq<Column<T>>, tail: string, more: seq<seq<string>>)
    requires columns != [] && ParseFile(tail) == Some(more)
    ensures ParseFile(Lines(CsvRows(rows, columns)) + tail) == Some(RowTexts(rows, columns) + more)
  {
    if rows == [] {
      assert Lines([]) + tail == tail;
      assert RowTexts(rows, columns) + more == more;
    } else {
      RowsThenTail(rows[1..], columns, tail, more);
      var rest := Lines(CsvRows(rows[1..], columns)) + tail;
      RecordRoundTrip(Values(rows[0], columns), rest);
      AssocLine(CsvRow(rows[0], columns), Lines(CsvRows(rows[1..], columns)), tail);
      var first := Texts(Values(rows[0], columns));
      RecordThenRecords(CsvRow(rows[0], columns), rest, first, RowTexts(rows[1..], columns) + more);
      AssociateRecords([first], RowTexts(rows[1..], columns), more);
    }
  }

  lemma AssociateRecords(a: seq<seq<string>>, b: seq<seq<string>>, c: seq<seq<string>>)
    ensures a + (b + c) == a + b + c
  {
  }

  lemma RecordThenRecords(line: string, rest: string, texts: seq<string>, more: seq<seq<string>>)
    requires ParseRecord(line + CRLF + rest) == Some((texts, rest)) && ParseFile(rest) == Some(more)
    ensures ParseFile(line + CRLF + rest) == Some([texts] + more)
  {
  }

  lemma AssocLine(line: string, lines: string, tail: string)
    ensures line + CRLF + lines + tail == line + CRLF + (lines + tail)
  {
  }
}
