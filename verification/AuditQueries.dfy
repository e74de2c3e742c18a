/**
 The two backward scans over the audit log against their declarative answers
 (`last_lock_in` and `recent_events_in` in `src/audit.rs`).
 */
module AuditQueries {
  import opened Wrappers
  import opened AuditText
  import opened AuditLog

  // ---- the last lock -----------------------------------------------------------------------

  /** A record as `last_lock_in` parses it. */
  datatype Record = Record(
    timestamp: string,
    operation: string,
    outcome: string,
    reason: Option<string>,
    client: Option<string>)

  const START := "agent.start"
  const STOP := "agent.stop"
  const LOCKS: seq<string> := [
    "agent.timeout_lock", "agent.server_logout", "agent.key_rotation_lock", STOP, "socket.lock"]

  predicate IsRelevant(r: Record) {
    r.outcome == "success" && (r.operation == START || r.operation in LOCKS)
  }

  /** The relevant records of some lines, in order; other lines are skipped. */
  function Relevant(parse: string -> Option<Record>, lines: seq<string>): seq<Record> {
    if |lines| == 0 then []
    else
      var rest := Relevant(parse, lines[..|lines| - 1]);
      match parse(lines[|lines| - 1])
      case Some(r) => if IsRelevant(r) then rest + [r] else rest
      case None => rest
  }

  /** The answer, which looks at the two newest relevant records only. */
  function LastLockOf(records: seq<Record>): Option<Record> {
    if |records| == 0 then None
    else
      var last := records[|records| - 1];
      if last.operation != START then Some(last)
      else if |records| >= 2 && records[|records| - 2].operation == STOP then Some(records[|records| - 2])
      else Some(last)
  }

  lemma {:induction false} RelevantOfSum(parse: string -> Option<Record>, a: seq<string>, b: seq<string>)
    ensures Relevant(parse, a + b) == Relevant(parse, a) + Relevant(parse, b)
  {
    if |b| == 0 {
      assert a + b == a;
    } else {
      RelevantOfSum(parse, a, b[..|b| - 1]);
      assert (a + b)[..|a + b| - 1] == a + b[..|b| - 1];
    }
  }

  /** The scan so far has met nothing relevant, or exactly one start. */
  ghost predicate Scanned(pending: Option<Record>, records: seq<Record>) {
    match pending
    case None => records == []
    case Some(start) => records == [start] && start.operation == START
  }

  datatype Scan = Continue(pending: Option<Record>) | Found(record: Record)

  /** What one parsed line does to the scan. */
  function ScanRecord(pending: Option<Record>, record: Record): Scan {
    if record.outcome != "success" then Continue(pending)
    else if record.operation == START then
      if pending.Some? then Found(pending.value) else Continue(Some(record))
    else if record.operation == STOP then Found(record)
    else if record.operation in LOCKS then Found(if pending.Some? then pending.value else record)
    else Continue(pending)
  }

  /** The scan stops as soon as older records cannot matter, and never before. */
  lemma ScanRecordFits(pending: Option<Record>, record: Record, newer: seq<Record>)
    requires Scanned(pending, newer)
    ensures !IsRelevant(record) ==> ScanRecord(pending, record) == Continue(pending)
    ensures IsRelevant(record) ==>
              match ScanRecord(pending, record)
              case Continue(next) => Scanned(next, [record] + newer)
              case Found(answer) => forall older :: LastLockOf(older + ([record] + newer)) == Some(answer)
  {
    assert STOP in LOCKS by { assert LOCKS[3] == STOP; }
    assert START != STOP by { assert START[8] != STOP[8]; }
  }

  function FromLine(parse: string -> Option<Record>, line: string): seq<Record> {
    match parse(line)
    case Some(r) => if IsRelevant(r) then [r] else []
    case None => []
  }

  lemma RelevantOne(parse: string -> Option<Record>, line: string)
    ensures Relevant(parse, [line]) == FromLine(parse, line)
  {
    hide IsRelevant;
    assert [line][..0] == [] && Relevant(parse, []) == [];
  }

  /** A line counts exactly if it parses to a success of one of these six operations. */
  lemma RelevantExactly(parse: string -> Option<Record>, line: string, r: Record)
    ensures Relevant(parse, [line]) == [r] <==>
              && parse(line) == Some(r) && r.outcome == "success"
              && (|| r.operation == "agent.start" || r.operation == "agent.stop" || r.operation == "agent.timeout_lock"
                  || r.operation == "agent.server_logout" || r.operation == "agent.key_rotation_lock"
                  || r.operation == "socket.lock")
    ensures Relevant(parse, [line]) == [] || exists t :: Relevant(parse, [line]) == [t]
  {
    RelevantOne(parse, line);
    assert LOCKS == [LOCKS[0], LOCKS[1], LOCKS[2], LOCKS[3], LOCKS[4]];
  }

  lemma SplitAt(lines: seq<string>, i: nat)
    requires i < |lines|
    ensures lines[i..] == [lines[i]] + lines[i + 1..] && lines == lines[..i] + lines[i..]
  {
  }

  lemma RelevantLine(parse: string -> Option<Record>, lines: seq<string>, i: nat)
    requires i < |lines|
    ensures Relevant(parse, lines[i..]) == FromLine(parse, lines[i]) + Relevant(parse, lines[i + 1..])
    ensures Relevant(parse, lines) == Relevant(parse, lines[..i]) + Relevant(parse, lines[i..])
  {
    hide Relevant, FromLine;
    SplitAt(lines, i);
    RelevantOne(parse, lines[i]);
    RelevantOfSum(parse, [lines[i]], lines[i + 1..]);
    RelevantOfSum(parse, lines[..i], lines[i..]);
  }

  /** What one line does to the scan; a line that does not parse does nothing. */
  function ScanLine(pending: Option<Record>, parsed: Option<Record>): Scan {
    if parsed.None? then Continue(pending) else ScanRecord(pending, parsed.value)
  }

  lemma FoundInContext(before: seq<Record>, one: seq<Record>, seen: seq<Record>, record: Record)
    requires forall older :: LastLockOf(older + (one + seen)) == Some(record)
    ensures forall older :: LastLockOf(older + (before + (one + seen))) == Some(record)
  {
    hide LastLockOf;
    forall older ensures LastLockOf(older + (before + (one + seen))) == Some(record) {
      assert older + (before + (one + seen)) == (older + before) + (one + seen);
    }
  }

  lemma ScanLineFits(
    parse: string -> Option<Record>, lines: seq<string>, i: nat, pending: Option<Record>, newer: seq<Record>)
    requires i < |lines| && Scanned(pending, Relevant(parse, lines[i + 1..]) + newer)
    ensures match ScanLine(pending, parse(lines[i])) {
              case Continue(next) => Scanned(next, Relevant(parse, lines[i..]) + newer)
              case Found(record) => forall older :: LastLockOf(older + (Relevant(parse, lines) + newer)) == Some(record)
            }
  {
    hide IsRelevant, LastLockOf, Scanned, ScanRecord, Relevant;
    var after, before, one := Relevant(parse, lines[i + 1..]), Relevant(parse, lines[..i]), FromLine(parse, lines[i]);
    RelevantLine(parse, lines, i);
    assert Relevant(parse, lines[i..]) + newer == one + (after + newer);
    assert Relevant(parse, lines) + newer == before + (one + (after + newer));
    if parse(lines[i]).Some? {
      var record := parse(lines[i]).value;
      ScanRecordFits(pending, record, after + newer);
      if ScanRecord(pending, record).Found? {
        FoundInContext(before, one, after + newer, ScanRecord(pending, record).record);
      }
    }
    assert [] + (after + newer) == after + newer;
  }

  /** One file, from its last line back. */
  method ScanForLock(
    parse: string -> Option<Record>, lines: seq<string>, pending0: Option<Record>, ghost newer: seq<Record>)
    returns (scan: Scan)
    requires Scanned(pending0, newer)
    ensures scan.Continue? ==> Scanned(scan.pending, Relevant(parse, lines) + newer)
    ensures scan.Found? ==> forall older :: LastLockOf(older + (Relevant(parse, lines) + newer)) == Some(scan.record)
  {
    assert Relevant(parse, lines[|lines|..]) + newer == newer;
    hide IsRelevant, LastLockOf, Scanned, ScanRecord, Relevant;
    var pending := pending0;
    for i := |lines| downto 0
      invariant Scanned(pending, Relevant(parse, lines[i..]) + newer)
    {
      ScanLineFits(parse, lines, i, pending, newer);
      match ScanLine(pending, parse(lines[i]))
      case Found(record) => return Found(record);
      case Continue(next) => pending := next;
    }
    assert lines[0..] == lines;
    scan := Continue(pending);
  }

  lemma RelevantOfThree(parse: string -> Option<Record>, older: seq<string>, lines: seq<string>, tail: seq<string>)
    ensures Relevant(parse, lines + tail) == Relevant(parse, lines) + Relevant(parse, tail)
    ensures Relevant(parse, older + (lines + tail))
         == Relevant(parse, older) + (Relevant(parse, lines) + Relevant(parse, tail))
  {
    hide Relevant;
    RelevantOfSum(parse, lines, tail);
    RelevantOfSum(parse, older, lines + tail);
  }

  lemma ChronologicalFrom(log: Log, days: seq<nat>, i: nat, tail: seq<string>)
    requires i < |days| && forall d :: d in days ==> d in log
    ensures Chronological(log, days[i..]) + tail == Chronological(log, days[i + 1..]) + (log[days[i]] + tail)
  {
    assert days[i..][1..] == days[i + 1..];
    assert days[i] in days;
  }

  lemma ScannedResult(pending: Option<Record>, records: seq<Record>)
    requires Scanned(pending, records)
    ensures LastLockOf(records) == pending
  {
  }

  method LastLockIn(parse: string -> Option<Record>, log: Log) returns (r: Option<Record>)
    ensures r == LastLockOf(Relevant(parse, AllLines(log)))
  {
    var days := SortDays(log);
    DaysAreKeys(log.Keys);
    assert Relevant(parse, []) == [];
    hide Relevant, LastLockOf, ScanRecord, NewestFirst, Chronological;
    var pending: Option<Record> := None;
    ghost var newer: seq<Record> := [];
    ghost var tail: seq<string> := [];
    for i := 0 to |days|
      invariant Scanned(pending, newer) && newer == Relevant(parse, tail)
      invariant AllLines(log) == Chronological(log, days[i..]) + tail
    {
      assert days[i] in days;
      var lines := log[days[i]];
      ghost var older := Chronological(log, days[i + 1..]);
      ChronologicalFrom(log, days, i, tail);
      RelevantOfThree(parse, older, lines, tail);
      var scan := ScanForLock(parse, lines, pending, newer);
      if scan.Found? {
        return Some(scan.record);
      }
      pending, newer, tail := scan.pending, Relevant(parse, lines) + newer, lines + tail;
    }
    assert AllLines(log) == tail by {
      NoDays(log, days[|days|..]);
    }
    ScannedResult(pending, newer);
    r := pending;
  }

  lemma NoDays(log: Log, days: seq<nat>)
    requires days == []
    ensures Chronological(log, days) == []
  {
  }

  // ---- it reports the true cause --------------------------------------------------------------

  /** One run of the agent: its start, the locks it recorded, and its stop unless it crashed. */
  datatype Session = Session(start: Record, locks: seq<Record>, stop: Option<Record>)

  predicate IsSession(s: Session) {
    && IsRelevant(s.start) && s.start.operation == START
    && (forall r :: r in s.locks ==> IsRelevant(r) && r.operation != START && r.operation != STOP)
    && (s.stop.Some? ==> IsRelevant(s.stop.value) && s.stop.value.operation == STOP)
  }

  function Recorded(s: Session): seq<Record> {
    [s.start] + s.locks + (if s.stop.Some? then [s.stop.value] else [])
  }

  function History(sessions: seq<Session>): seq<Record> {
    if |sessions| == 0 then [] else History(sessions[..|sessions| - 1]) + Recorded(sessions[|sessions| - 1])
  }

  /**
   Why the vault was last locked: the newest stop or lock of the newest run,
   else the stop that ended the run before, else that start, unexplained.
   */
  function TrueCause(sessions: seq<Session>): Option<Record> {
    if |sessions| == 0 then None
    else
      var newest := sessions[|sessions| - 1];
      if newest.stop.Some? then newest.stop
      else if |newest.locks| > 0 then Some(newest.locks[|newest.locks| - 1])
      else if |sessions| >= 2 && sessions[|sessions| - 2].stop.Some? then sessions[|sessions| - 2].stop
      else Some(newest.start)
  }

  lemma HistoryEnds(sessions: seq<Session>)
    requires |sessions| > 0 && forall s :: s in sessions ==> IsSession(s)
    ensures |History(sessions)| > 0
    ensures var last, newest := History(sessions)[|History(sessions)| - 1], sessions[|sessions| - 1];
            && (last.operation == STOP <==> newest.stop.Some?)
            && (newest.stop.Some? ==> last == newest.stop.value)
            && (newest.stop.None? && |newest.locks| > 0 ==> last == newest.locks[|newest.locks| - 1])
            && (newest.stop.None? && |newest.locks| == 0 ==> last == newest.start)
  {
    var newest := sessions[|sessions| - 1];
    assert newest in sessions;
    assert |newest.locks| > 0 ==> newest.locks[|newest.locks| - 1] in newest.locks;
  }

  /** For every lifecycle the answer is the true cause. */
  lemma ReportsTrueCause(sessions: seq<Session>)
    requires forall s :: s in sessions ==> IsSession(s)
    ensures LastLockOf(History(sessions)) == TrueCause(sessions)
  {
    if |sessions| > 0 {
      var newest, before := sessions[|sessions| - 1], sessions[..|sessions| - 1];
      assert newest in sessions;
      HistoryEnds(sessions);
      assert |newest.locks| > 0 ==> newest.locks[|newest.locks| - 1] in newest.locks;
      if newest.stop.None? && |newest.locks| == 0 {
        assert History(sessions) == History(before) + [newest.start];
        if |before| > 0 {
          assert forall s :: s in before ==> s in sessions;
          HistoryEnds(before);
        }
      }
    }
  }

  /**
   Whether what is kept of some records decides the answer: two records do, and a
   single one does unless it is a start whose explaining stop was dropped.
   */
  predicate Decides(kept: seq<Record>, all: seq<Record>) {
    || |kept| >= 2
    || kept == all
    || (|kept| == 1 && !(kept[0].operation == START && |all| >= 2 && all[|all| - 2].operation == STOP))
  }

  /** The answer from the newest records is the answer from all of them exactly then. */
  lemma SuffixDecides(kept: seq<Record>, all: seq<Record>)
    requires IsSuffix(kept, all)
    ensures LastLockOf(kept) == LastLockOf(all) <==> Decides(kept, all)
  {
    assert START != STOP by { assert START[8] != STOP[8]; }
  }

  lemma RelevantSuffix(parse: string -> Option<Record>, kept: seq<string>, all: seq<string>)
    requires IsSuffix(kept, all)
    ensures IsSuffix(Relevant(parse, kept), Relevant(parse, all))
  {
    hide Relevant;
    assert all == all[..|all| - |kept|] + kept;
    RelevantOfSum(parse, all[..|all| - |kept|], kept);
  }

  /**
   Where the cause has to stand among the records as filed: last, and then no start
   that a stop comes right before; or as the stop right before a last start.
   */
  predicate FiledRight(kept: seq<Record>, cause: Option<Record>) {
    var n := |kept|;
    match cause
    case None => n == 0
    case Some(r) =>
      || (n >= 1 && kept[n - 1] == r && (r.operation == START ==> n == 1 || kept[n - 2].operation != STOP))
      || (n >= 2 && kept[n - 2] == r && r.operation == STOP && kept[n - 1].operation == START)
  }

  lemma FiledRightDecides(kept: seq<Record>, cause: Option<Record>)
    ensures LastLockOf(kept) == cause <==> FiledRight(kept, cause)
  {
    assert START != STOP by { assert START[8] != STOP[8]; }
  }

  lemma AscendingLastLock(
    parse: string -> Option<Record>, retention: nat, entries: seq<(nat, string)>, sessions: seq<Session>)
    requires DaysAscend(entries) && (forall s :: s in sessions ==> IsSession(s))
    requires Relevant(parse, LinesOf(entries)) == History(sessions)
    ensures var kept := Relevant(parse, AllLines(AppendAll(map[], retention, entries)));
            LastLockOf(kept) == TrueCause(sessions) <==> Decides(kept, History(sessions))
  {
    hide AllLines, AppendAll, LinesOf, Relevant, LastLockOf, TrueCause, History, IsSession, Decides, IsSuffix;
    AppendedLines(retention, entries);
    var lines := AllLines(AppendAll(map[], retention, entries));
    RelevantSuffix(parse, lines, LinesOf(entries));
    SuffixDecides(Relevant(parse, lines), History(sessions));
    ReportsTrueCause(sessions);
  }

  /**
   The lifecycle as written to the log: records of any agent runs, mixed with any
   other lines, spread over days in any way by any clock, and pruned on the way. What
   is scanned are the surviving records stably sorted by day, and the scan finds the
   cause exactly if it is filed right among them; on days that ascend, exactly if what
   is retained decides it.
   */
  lemma LastLockAfterAppends(
    parse: string -> Option<Record>, retention: nat, entries: seq<(nat, string)>, sessions: seq<Session>)
    ensures var kept := Relevant(parse, AllLines(AppendAll(map[], retention, entries)));
            && kept == Relevant(parse, LinesOf(SortByDay(Survivors(retention, entries))))
            && (LastLockOf(kept) == TrueCause(sessions) <==> FiledRight(kept, TrueCause(sessions)))
            && (DaysAscend(entries) && (forall s :: s in sessions ==> IsSession(s))
                && Relevant(parse, LinesOf(entries)) == History(sessions) ==>
                  (LastLockOf(kept) == TrueCause(sessions) <==> Decides(kept, History(sessions))))
  {
    hide AllLines, AppendAll, LinesOf, Relevant, LastLockOf, TrueCause, History, IsSession, Decides, DaysAscend,
         FiledRight, SortByDay, Survivors;
    AppendedLines(retention, entries);
    FiledRightDecides(Relevant(parse, AllLines(AppendAll(map[], retention, entries))), TrueCause(sessions));
    if DaysAscend(entries) && (forall s :: s in sessions ==> IsSession(s))
       && Relevant(parse, LinesOf(entries)) == History(sessions)
    {
      AscendingLastLock(parse, retention, entries, sessions);
    }
  }

  // ---- where it does not ------------------------------------------------------------------------

  lemma RetainedOfPair(a: (nat, string), b: (nat, string), today: nat, retention: nat)
    ensures Retained([a, b], today, retention)
         == (if IsRetained(a.0, today, retention) then [a] else [])
            + (if IsRetained(b.0, today, retention) then [b] else [])
  {
    assert [a, b][..1] == [a] && [a][..0] == [];
    assert Retained([a], today, retention) == if IsRetained(a.0, today, retention) then [a] else [];
  }

  lemma SurvivorsOfPair(retention: nat, a: (nat, string), b: (nat, string))
    ensures Survivors(retention, [a, b]) == (if IsRetained(a.0, b.0, retention) then [a] else []) + [b]
  {
    assert [a, b][..1] == [a] && [a][..0] == [];
    assert Survivors(retention, [a]) == [a];
    assert Retained([a], b.0, retention) == if IsRetained(a.0, b.0, retention) then [a] else [];
  }

  lemma OnlyTheLastSurvives(retention: nat, a: (nat, string), b: (nat, string), c: (nat, string))
    requires a.0 == b.0 && !IsRetained(a.0, c.0, retention)
    ensures SortByDay(Survivors(retention, [a, b, c])) == [c]
  {
    SurvivorsOfPair(retention, a, b);
    RetainedOfPair(a, b, c.0, retention);
    assert [a, b, c][..2] == [a, b] && [c][..0] == [];
    assert Survivors(retention, [a, b, c]) == Retained(Survivors(retention, [a, b]), c.0, retention) + [c] == [c];
  }

  lemma SortOfPair(a: (nat, string), b: (nat, string))
    requires a.0 > b.0
    ensures SortByDay([a, b]) == [b, a]
  {
    assert [a, b][..1] == [a] && [a][..0] == [];
    assert SortByDay([a]) == [a];
    assert InsertByDay([a], b) == InsertByDay([], b) + [a];
  }

  /** The line parses to this relevant record. */
  predicate Reads(parse: string -> Option<Record>, line: string, r: Record) {
    parse(line) == Some(r) && IsRelevant(r)
  }

  lemma RelevantPair(parse: string -> Option<Record>, a: string, b: string, r: Record, t: Record)
    requires Reads(parse, a, r) && Reads(parse, b, t)
    ensures Relevant(parse, [a, b]) == [r, t]
  {
    RelevantOne(parse, a);
    RelevantOne(parse, b);
    RelevantOfSum(parse, [a], [b]);
    assert [a] + [b] == [a, b];
  }

  /** A run that ended in a stop, and the one after it, with nothing else recorded. */
  function Restart(start: Record, stop: Record, again: Record): seq<Session> {
    [Session(start, [], Some(stop)), Session(again, [], None)]
  }

  lemma RestartHistory(start: Record, stop: Record, again: Record)
    ensures History(Restart(start, stop, again)) == [start, stop, again]
  {
    var sessions := Restart(start, stop, again);
    assert sessions[..1] == [sessions[0]] && sessions[..1][..0] == [];
    assert History(sessions[..1]) == Recorded(sessions[0]);
  }

  lemma RestartReads(retention: nat, early: nat, late: nat, first: string, second: string, third: string)
    requires !IsRetained(early, late, retention)
    ensures AllLines(AppendAll(map[], retention, [(early, first), (early, second), (late, third)])) == [third]
  {
    hide AllLines, AppendAll, Survivors, SortByDay;
    OnlyTheLastSurvives(retention, (early, first), (early, second), (late, third));
    AppendedLines(retention, [(early, first), (early, second), (late, third)]);
  }

  /**
   A stop pruned with its day, for any parser, lines and days: the restart is
   reported, and not the stop that explains it.
   */
  lemma PrunedStopMisleads(
    parse: string -> Option<Record>, retention: nat, early: nat, late: nat,
    first: string, second: string, third: string, start: Record, stop: Record, again: Record)
    requires Reads(parse, first, start) && Reads(parse, second, stop) && Reads(parse, third, again)
    requires start.operation == START && stop.operation == STOP && again.operation == START
    requires !IsRetained(early, late, retention)
    ensures var entries := [(early, first), (early, second), (late, third)];
            && Relevant(parse, LinesOf(entries)) == History(Restart(start, stop, again))
            && LastLockOf(Relevant(parse, AllLines(AppendAll(map[], retention, entries)))) == Some(again)
            && TrueCause(Restart(start, stop, again)) == Some(stop)
  {
    RestartHistory(start, stop, again);
    RestartReads(retention, early, late, first, second, third);
    RelevantPair(parse, first, second, start, stop);
    RelevantOne(parse, third);
    RelevantOfSum(parse, [first, second], [third]);
    hide AllLines, AppendAll, Relevant, History;
    assert LinesOf([(early, first), (early, second), (late, third)]) == [first, second] + [third];
  }

  lemma SetBackReads(retention: nat, early: nat, late: nat, first: string, second: string)
    requires early < late
    ensures AllLines(AppendAll(map[], retention, [(late, first), (early, second)])) == [second, first]
  {
    hide AllLines, AppendAll, Survivors, SortByDay;
    var entries := [(late, first), (early, second)];
    SurvivorsOfPair(retention, (late, first), (early, second));
    assert Survivors(retention, entries) == entries;
    SortOfPair((late, first), (early, second));
    AppendedLines(retention, entries);
  }

  /**
   A clock set back between a start and a lock, for any parser, lines, days and
   retention: the lock is filed before the start it followed, and the start is reported.
   */
  lemma ClockSetBackMisleads(
    parse: string -> Option<Record>, retention: nat, early: nat, late: nat,
    first: string, second: string, start: Record, lock: Record)
    requires Reads(parse, first, start) && Reads(parse, second, lock) && early < late
    requires start.operation == START && lock.operation != START && lock.operation != STOP
    ensures var entries := [(late, first), (early, second)];
            && Relevant(parse, LinesOf(entries)) == History([Session(start, [lock], None)])
            && LastLockOf(Relevant(parse, AllLines(AppendAll(map[], retention, entries)))) == Some(start)
            && TrueCause([Session(start, [lock], None)]) == Some(lock)
  {
    SetBackReads(retention, early, late, first, second);
    RelevantPair(parse, first, second, start, lock);
    RelevantPair(parse, second, first, lock, start);
    hide AllLines, AppendAll, Relevant;
    assert LinesOf([(late, first), (early, second)]) == [first, second];
    assert [Session(start, [lock], None)][..0] == [];
  }

  // ---- recent events ----------------------------------------------------------------------------

  datatype Query = Query(limit: nat, allowed: seq<string>, names: map<string, string>)

  predicate Allows(q: Query, e: Event) {
    IsNotable(e.operation) && (e.account.Some? ==> e.account.value in q.allowed)
  }

  function Rename(q: Query, e: Event): Event {
    if e.actor in q.names && q.names[e.actor] != "" then e.(actor := q.names[e.actor]) else e
  }

  /** The event a line contributes, declaratively. */
  function Entry(parse: string -> Option<Event>, q: Query, line: string): Option<Event> {
    match parse(line)
    case Some(e) => if Allows(q, e) then Some(Rename(q, e)) else None
    case None => None
  }

  /**
   What a line shows of itself, in terms of its event alone: a notable operation, of no
   account or an allowed one, with the actor's name where one is known.
   */
  predicate Shows(parse: string -> Option<Event>, q: Query, line: string, e: Event) {
    && parse(line).Some?
    && var o := parse(line).value;
    && o.operation in NOTABLE
    && (match o.account case None => true case Some(account) => account in q.allowed)
    && e == o.(actor := if o.actor in q.names && q.names[o.actor] != "" then q.names[o.actor] else o.actor)
  }

  lemma EntryExactly(parse: string -> Option<Event>, q: Query, line: string, e: Event)
    ensures Entry(parse, q, line) == Some(e) <==> Shows(parse, q, line, e)
    ensures Entry(parse, q, line).Some? <==> exists shown :: Shows(parse, q, line, shown)
  {
    hide NOTABLE;
    if Entry(parse, q, line).Some? {
      var shown := Entry(parse, q, line).value;
      assert Shows(parse, q, line, shown);
    }
  }

  /** The same behind the textual prefilter. */
  function FilteredEntry(parse: string -> Option<Event>, q: Query, line: string): Option<Event> {
    match LineOperation(line)
    case Some(operation) => if IsNotable(operation) then Entry(parse, q, line) else None
    case None => Entry(parse, q, line)
  }

  function Plainly(parse: string -> Option<Event>, q: Query): string -> Option<Event> {
    line => Entry(parse, q, line)
  }

  function Prefiltered(parse: string -> Option<Event>, q: Query): string -> Option<Event> {
    line => FilteredEntry(parse, q, line)
  }

  function Entries(entry: string -> Option<Event>, lines: seq<string>): seq<Event> {
    if |lines| == 0 then []
    else
      var rest := Entries(entry, lines[..|lines| - 1]);
      var last := entry(lines[|lines| - 1]);
      if last.Some? then rest + [last.value] else rest
  }

  function Newest<T>(s: seq<T>, n: nat): seq<T> {
    if |s| <= n then s else s[|s| - n..]
  }

  function Reverse<T>(s: seq<T>): (r: seq<T>)
    ensures |r| == |s|
    ensures forall i :: 0 <= i < |s| ==> r[i] == s[|s| - 1 - i]
  {
    seq(|s|, i requires 0 <= i < |s| => s[|s| - 1 - i])
  }

  lemma {:induction false} EntriesOfSum(entry: string -> Option<Event>, a: seq<string>, b: seq<string>)
    ensures Entries(entry, a + b) == Entries(entry, a) + Entries(entry, b)
  {
    if |b| == 0 {
      assert a + b == a;
    } else {
      EntriesOfSum(entry, a, b[..|b| - 1]);
      assert (a + b)[..|a + b| - 1] == a + b[..|b| - 1];
    }
  }

  lemma NewestOfSum<T>(older: seq<T>, newer: seq<T>, n: nat)
    requires |Newest(newer, n)| >= n
    ensures Newest(older + newer, n) == Newest(newer, n)
  {
  }

  lemma NewestOfShort<T>(s: seq<T>, n: nat)
    requires |s| <= n
    ensures Newest(s, n) == s
  {
  }

  lemma EntriesOfNone(entry: string -> Option<Event>)
    ensures Entries(entry, []) == []
  {
  }

  lemma EntriesOfOne(entry: string -> Option<Event>, line: string)
    ensures Entries(entry, [line]) == if entry(line).Some? then [entry(line).value] else []
  {
    assert [line][..0] == [];
  }

  lemma EntriesLine(entry: string -> Option<Event>, lines: seq<string>, i: nat)
    requires i < |lines|
    ensures Entries(entry, lines[i..])
         == (if entry(lines[i]).Some? then [entry(lines[i]).value] else []) + Entries(entry, lines[i + 1..])
    ensures Entries(entry, lines) == Entries(entry, lines[..i]) + Entries(entry, lines[i..])
  {
    hide Entries;
    SplitAt(lines, i);
    EntriesOfOne(entry, lines[i]);
    EntriesOfSum(entry, [lines[i]], lines[i + 1..]);
    EntriesOfSum(entry, lines[..i], lines[i..]);
  }

  /** One file, from its last line back; `events` collects newest first and stops at the limit. */
  method ScanEvents(entry: string -> Option<Event>, limit: nat, lines: seq<string>, events0: seq<Event>)
    returns (events: seq<Event>)
    requires |events0| < limit
    ensures |events| <= limit
    ensures Reverse(events) == Newest(Entries(entry, lines) + Reverse(events0), limit)
    ensures |events| < limit ==> Reverse(events) == Entries(entry, lines) + Reverse(events0)
  {
    hide Entries;
    events := events0;
    assert Entries(entry, lines[|lines|..]) == [] by { assert lines[|lines|..] == []; EntriesOfNone(entry); }
    for i := |lines| downto 0
      invariant |events| < limit
      invariant Reverse(events) == Entries(entry, lines[i..]) + Reverse(events0)
    {
      EntriesLine(entry, lines, i);
      var event := entry(lines[i]);
      if event.None? {
        continue;
      }
      ghost var collected := Reverse(events);
      events := events + [event.value];
      assert Reverse(events) == [event.value] + collected;
      if |events| >= limit {
        assert Entries(entry, lines) + Reverse(events0) == Entries(entry, lines[..i]) + Reverse(events);
        return;
      }
    }
    assert lines[0..] == lines;
  }

  lemma EntriesOfThree(entry: string -> Option<Event>, older: seq<string>, lines: seq<string>, tail: seq<string>)
    ensures older + lines + tail == older + (lines + tail)
    ensures Entries(entry, lines + tail) == Entries(entry, lines) + Entries(entry, tail)
    ensures Entries(entry, older + (lines + tail)) == Entries(entry, older) + Entries(entry, lines + tail)
  {
    hide Entries;
    EntriesOfSum(entry, lines, tail);
    EntriesOfSum(entry, older, lines + tail);
  }

  /** The newest entries of the two newest days, unless nothing was asked for. */
  ghost function RecentAnswer(entry: string -> Option<Event>, log: Log, q: Query): seq<Event> {
    if q.limit == 0 || q.allowed == [] then [] else Newest(Entries(entry, RecentLines(log)), q.limit)
  }

  /** The lines of a list at which this entry is found, in order. */
  ghost predicate PicksEntries(entry: string -> Option<Event>, lines: seq<string>, picks: seq<nat>) {
    && (forall i, j :: 0 <= i < j < |picks| ==> picks[i] < picks[j])
    && (forall i: nat :: i in picks <==> i < |lines| && entry(lines[i]).Some?)
  }

  /** `Entries` takes exactly these, each once and in order. */
  lemma {:induction false} EntriesPick(entry: string -> Option<Event>, lines: seq<string>) returns (picks: seq<nat>)
    ensures PicksEntries(entry, lines, picks) && |Entries(entry, lines)| == |picks|
    ensures forall k :: 0 <= k < |picks| ==>
                          picks[k] < |lines| && entry(lines[picks[k]]) == Some(Entries(entry, lines)[k])
  {
    picks := [];
    if |lines| > 0 {
      var n := |lines| - 1;
      picks := EntriesPick(entry, lines[..n]);
      assert Entries(entry, lines)
          == Entries(entry, lines[..n]) + if entry(lines[n]).Some? then [entry(lines[n]).value] else [];
      hide Entries, PicksEntries;
      PickMoreEntries(entry, lines, picks);
      if entry(lines[n]).Some? {
        picks := picks + [n];
      }
    }
  }

  lemma PickMoreEntries(entry: string -> Option<Event>, lines: seq<string>, picks: seq<nat>)
    requires |lines| > 0 && PicksEntries(entry, lines[..|lines| - 1], picks)
    ensures var n := |lines| - 1;
            PicksEntries(entry, lines, if entry(lines[n]).Some? then picks + [n] else picks)
  {
    var init, n := lines[..|lines| - 1], |lines| - 1;
    forall k | 0 <= k < |picks| ensures picks[k] < n { assert picks[k] in picks; }
    assert forall i: nat :: i < n ==> init[i] == lines[i];
    assert forall i: nat :: i in picks + [n] <==> i in picks || i == n;
  }

  /** On any log, whoever wrote it: what is shown comes from a line that shows it, of no account or an allowed one. */
  lemma AnswerIsAllowed(parse: string -> Option<Event>, log: Log, q: Query)
    ensures forall e :: e in RecentAnswer(Prefiltered(parse, q), log, q) ==>
                          && (e.account.None? || e.account.value in q.allowed)
                          && exists line :: line in RecentLines(log) && Shows(parse, q, line, e)
  {
    hide RecentLines, Entries, NOTABLE;
    var lines, answer := RecentLines(log), RecentAnswer(Prefiltered(parse, q), log, q);
    var picks := EntriesPick(Prefiltered(parse, q), lines);
    forall e | e in answer
      ensures e.account.None? || e.account.value in q.allowed
      ensures exists line :: line in lines && Shows(parse, q, line, e)
    {
      var all := Entries(Prefiltered(parse, q), lines);
      assert e in all;
      var k :| 0 <= k < |all| && all[k] == e;
      var line := lines[picks[k]];
      EntryExactly(parse, q, line, e);
      assert line in lines && FilteredEntry(parse, q, line) == Some(e);
    }
  }

  method RecentEventsIn(parse: string -> Option<Event>, log: Log, q: Query) returns (events: seq<Event>)
    ensures events == RecentAnswer(Prefiltered(parse, q), log, q)
    ensures forall e :: e in events ==> e.account.None? || e.account.value in q.allowed
  {
    AnswerIsAllowed(parse, log, q);
    if q.limit == 0 || q.allowed == [] {
      return [];
    }
    hide Prefiltered, Entries, Newest, Chronological, NewestFirst;
    var entry := Prefiltered(parse, q);
    var days := SortDays(log);
    DaysAreKeys(log.Keys);
    if |days| > 2 {
      days := days[..2];
    }
    events := [];
    ghost var tail: seq<string> := [];
    NothingYet(entry, log, days);
    for i := 0 to |days|
      invariant |events| < q.limit && Reverse(events) == Entries(entry, tail)
      invariant RecentLines(log) == Chronological(log, days[i..]) + tail
    {
      assert days[i] in days;
      var lines := log[days[i]];
      ghost var older := OneDayLess(log, days, i);
      EntriesOfThree(entry, older, lines, tail);
      events := ScanEvents(entry, q.limit, lines, events);
      if |events| >= q.limit {
        NewestOfSum(Entries(entry, older), Entries(entry, lines + tail), q.limit);
        return Reverse(events);
      }
      tail := lines + tail;
    }
    NoDaysLeft(log, days[|days|..]);
    assert RecentLines(log) == tail;
    NewestOfShort(Entries(entry, tail), q.limit);
    events := Reverse(events);
  }

  lemma NothingYet(entry: string -> Option<Event>, log: Log, days: seq<nat>)
    requires forall d :: d in days ==> d in log
    ensures Entries(entry, []) == []
    ensures Chronological(log, days[0..]) + [] == Chronological(log, days)
  {
    assert days[0..] == days;
  }

  lemma NoDaysLeft(log: Log, days: seq<nat>)
    requires |days| == 0
    ensures Chronological(log, days) == []
  {
  }

  lemma OneDayLess(log: Log, days: seq<nat>, i: nat) returns (older: seq<string>)
    requires (forall d :: d in days ==> d in log) && i < |days|
    ensures days[i] in log
    ensures older == Chronological(log, days[i + 1..])
    ensures Chronological(log, days[i..]) == older + log[days[i]]
  {
    assert days[i] in days;
    assert days[i..][1..] == days[i + 1..];
    older := Chronological(log, days[i + 1..]);
  }

  /** On lines the writer serialized, the prefilter never changes what a line contributes. */
  lemma PrefilterChangesNothing(parse: string -> Option<Event>, q: Query, e: Event)
    requires parse(Serialize(e)) == Some(e)
    ensures FilteredEntry(parse, q, Serialize(e)) == Entry(parse, q, Serialize(e))
  {
    PrefilterAgrees(e);
  }

  lemma {:induction false} SameEntries(f: string -> Option<Event>, g: string -> Option<Event>, lines: seq<string>)
    requires forall line :: line in lines ==> f(line) == g(line)
    ensures Entries(f, lines) == Entries(g, lines)
  {
    if |lines| > 0 {
      assert lines[|lines| - 1] in lines;
      SameEntries(f, g, lines[..|lines| - 1]);
    }
  }

  lemma {:induction false} NoEntries(entry: string -> Option<Event>, lines: seq<string>)
    ensures Entries(entry, lines) == [] <==> forall line :: line in lines ==> entry(line).None?
  {
    if |lines| > 0 {
      NoEntries(entry, lines[..|lines| - 1]);
      assert forall line :: line in lines <==> line in lines[..|lines| - 1] || line == lines[|lines| - 1];
    }
  }

  /** What rbw appends for some events, each on its day. */
  function Written(records: seq<(nat, Event)>): (entries: seq<(nat, string)>)
    ensures |entries| == |records|
  {
    seq(|records|, i requires 0 <= i < |records| => (records[i].0, Serialize(records[i].1)))
  }

  lemma WrittenLines(parse: string -> Option<Event>, retention: nat, records: seq<(nat, Event)>, line: string)
    requires forall r :: r in records ==> parse(Serialize(r.1)) == Some(r.1)
    requires line in RecentLines(AppendAll(map[], retention, Written(records)))
    ensures parse(line).Some? && line == Serialize(parse(line).value)
  {
    hide Serialize, RecentLines, AllLines, AppendAll;
    RecentAreLines(AppendAll(map[], retention, Written(records)));
    ReadBackWasAppended(retention, Written(records));
    var i :| 0 <= i < |records| && LinesOf(Written(records))[i] == line;
    assert records[i] in records;
  }

  /** A notable event that belongs to no account. */
  ghost predicate HoldsAccountless(parse: string -> Option<Event>, lines: seq<string>) {
    exists line :: line in lines && parse(line).Some?
                   && IsNotable(parse(line).value.operation) && parse(line).value.account.None?
  }

  lemma WrittenEntries(parse: string -> Option<Event>, retention: nat, records: seq<(nat, Event)>, q: Query)
    requires forall r :: r in records ==> parse(Serialize(r.1)) == Some(r.1)
    ensures var lines := RecentLines(AppendAll(map[], retention, Written(records)));
            Entries(Prefiltered(parse, q), lines) == Entries(Plainly(parse, q), lines)
  {
    hide Serialize, RecentLines, AppendAll, Entries;
    var lines := RecentLines(AppendAll(map[], retention, Written(records)));
    forall line | line in lines ensures FilteredEntry(parse, q, line) == Entry(parse, q, line) {
      WrittenLines(parse, retention, records, line);
      PrefilterChangesNothing(parse, q, parse(line).value);
    }
    SameEntries(Prefiltered(parse, q), Plainly(parse, q), lines);
  }

  lemma EntriesWithoutAccounts(parse: string -> Option<Event>, q: Query, lines: seq<string>)
    requires q.allowed == []
    ensures Entries(Plainly(parse, q), lines) == [] <==> !HoldsAccountless(parse, lines)
  {
    hide IsNotable, Rename;
    NoEntries(Plainly(parse, q), lines);
  }

  /**
   So on a log that rbw appended, on any days, the answer is exactly the newest
   `limit` notable events with an allowed or absent account from the two newest day
   files, in chronological order; except that without any allowed account the events
   of no account are left out as well.
   */
  lemma RecentEventsExact(parse: string -> Option<Event>, retention: nat, records: seq<(nat, Event)>, q: Query)
    requires forall r :: r in records ==> parse(Serialize(r.1)) == Some(r.1)
    ensures
      var log := AppendAll(map[], retention, Written(records));
      var expected := Newest(Entries(Plainly(parse, q), RecentLines(log)), q.limit);
      (RecentAnswer(Prefiltered(parse, q), log, q) == expected
       <==> q.allowed != [] || q.limit == 0 || !HoldsAccountless(parse, RecentLines(log)))
  {
    hide Entries, RecentLines, AppendAll, HoldsAccountless, Serialize;
    var log := AppendAll(map[], retention, Written(records));
    WrittenEntries(parse, retention, records, q);
    if q.allowed == [] { EntriesWithoutAccounts(parse, q, RecentLines(log)); }
  }

  lemma OneRecordReads(line: string)
    ensures RecentLines(AppendAll(map[], 1, [(0, line)])) == [line]
  {
    var empty: Log := map[];
    assert [(0, line)][..0] == [] && AppendAll(empty, 1, []) == empty;
    var log := AppendAll(empty, 1, [(0, line)]);
    assert Prune(empty, 0, 1) == empty && log == Append(empty, 0, 1, line);
    assert LinesOn(empty, 0) + [line] == [line] && log == map[0 := [line]];
    assert log.Keys == {0} && {0} - {0} == {};
    NewestFirstUnfolds({0}, 0);
    DaysAreKeys(log.Keys);
    assert NewestFirst(log.Keys) == [0];
    var days: seq<nat> := [0];
    assert days[1..] == [] && Chronological(log, []) == [];
    assert Chronological(log, days) == [] + [line];
  }

  /** Such an event, alone in the log: with no account allowed it is not shown. */
  lemma AccountlessIsHidden(parse: string -> Option<Event>, e: Event)
    requires parse(Serialize(e)) == Some(e) && IsNotable(e.operation) && e.account.None?
    ensures var q, log := Query(1, [], map[]), AppendAll(map[], 1, Written([(0, e)]));
            && RecentAnswer(Prefiltered(parse, q), log, q) == []
            && Newest(Entries(Plainly(parse, q), RecentLines(log)), q.limit) == [e]
  {
    hide IsNotable, Serialize, AppendAll, RecentLines;
    var line := Serialize(e);
    assert Written([(0, e)]) == [(0, line)];
    OneRecordReads(line);
    EntriesOfOne(Plainly(parse, Query(1, [], map[])), line);
  }

  /** The lines of a list that show something, in order. */
  ghost predicate PicksShown(parse: string -> Option<Event>, q: Query, lines: seq<string>, picks: seq<nat>) {
    && (forall i, j :: 0 <= i < j < |picks| ==> picks[i] < picks[j])
    && (forall i: nat :: i in picks <==> i < |lines| && exists e :: Shows(parse, q, lines[i], e))
  }

  /**
   The answer on what rbw appended, in terms of the lines of the two newest days
   alone: of the lines that show something, the newest `limit`, each once and in order.
   */
  lemma RecentEventsShown(parse: string -> Option<Event>, retention: nat, records: seq<(nat, Event)>, q: Query)
    returns (shown: seq<nat>)
    requires (forall r :: r in records ==> parse(Serialize(r.1)) == Some(r.1)) && q.allowed != []
    ensures var log := AppendAll(map[], retention, Written(records));
            var lines, answer := RecentLines(log), RecentAnswer(Prefiltered(parse, q), log, q);
            && PicksShown(parse, q, lines, shown)
            && |answer| == (if |shown| <= q.limit then |shown| else q.limit)
            && forall k :: 0 <= k < |answer| ==>
                             var i := shown[|shown| - |answer| + k];
                             i < |lines| && Shows(parse, q, lines[i], answer[k])
  {
    hide RecentLines, Entries, AppendAll, Serialize, NOTABLE, Shows, Entry;
    var lines := RecentLines(AppendAll(map[], retention, Written(records)));
    WrittenEntries(parse, retention, records, q);
    var entry := Plainly(parse, q);
    shown := EntriesPick(entry, lines);
    var all := Entries(entry, lines);
    forall i: nat | i < |lines|
      ensures entry(lines[i]).Some? <==> exists e :: Shows(parse, q, lines[i], e)
    {
      if entry(lines[i]).Some? {
        EntryExactly(parse, q, lines[i], entry(lines[i]).value);
      } else {
        forall e ensures !Shows(parse, q, lines[i], e) { EntryExactly(parse, q, lines[i], e); }
      }
    }
    forall k | 0 <= k < |all| ensures Shows(parse, q, lines[shown[k]], all[k]) {
      EntryExactly(parse, q, lines[shown[k]], all[k]);
    }
  }
}
