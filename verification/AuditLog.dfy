/**
 The audit log as day files of lines, and appending with retention (`append_at`
 and `prune_expired` in `src/audit.rs`). A day whose file cannot be read holds no
 lines; the lock, permissions and failed writes are not part of this model.
 */
module AuditLog {
  /** The files named `audit-<day>.jsonl`, by day. */
  type Log = map<nat, seq<string>>

  // ---- days -----------------------------------------------------------------------------

  ghost predicate IsNewest(days: set<nat>, day: nat) {
    day in days && forall d :: d in days ==> d <= day
  }

  lemma {:induction false} HasNewest(days: set<nat>)
    requires days != {}
    ensures exists day :: IsNewest(days, day)
    decreases |days|
  {
    var d :| d in days;
    if days == {d} {
      assert IsNewest(days, d);
    } else {
      var rest := days - {d};
      assert days == rest + {d};
      HasNewest(rest);
      var day: nat :| IsNewest(rest, day);
      assert IsNewest(days, if day < d then d else day);
    }
  }

  /** The days, newest first: the listed directory, sorted. */
  ghost function NewestFirst(days: set<nat>): seq<nat>
    decreases |days|
  {
    if days == {} then []
    else
      HasNewest(days);
      var day: nat :| IsNewest(days, day);
      [day] + NewestFirst(days - {day})
  }

  lemma NewestFirstUnfolds(days: set<nat>, day: nat)
    requires IsNewest(days, day)
    ensures NewestFirst(days) == [day] + NewestFirst(days - {day})
  {
    var newest: nat :| IsNewest(days, newest) && NewestFirst(days) == [newest] + NewestFirst(days - {newest});
    assert IsNewest(days, newest);
    assert newest in days;
    assert day in days;
  }

  method NewestOf(days: set<nat>) returns (day: nat)
    requires days != {}
    ensures IsNewest(days, day)
  {
    day :| day in days;
    var others := days - {day};
    while others != {}
      invariant others <= days && day in days
      invariant forall d :: d in days && d !in others ==> d <= day
      decreases |others|
    {
      var other :| other in others;
      others := others - {other};
      if other > day {
        day := other;
      }
    }
  }

  lemma {:induction false} NewestFirstDescends(days: set<nat>)
    ensures forall i, j :: 0 <= i < j < |NewestFirst(days)| ==> NewestFirst(days)[i] > NewestFirst(days)[j]
    decreases |days|
  {
    if days != {} {
      HasNewest(days);
      var day: nat :| IsNewest(days, day) && NewestFirst(days) == [day] + NewestFirst(days - {day});
      var rest := NewestFirst(days - {day});
      NewestFirstDescends(days - {day});
      DaysAreKeys(days - {day});
      assert forall j :: 0 <= j < |rest| ==> rest[j] in rest && rest[j] in days - {day};
    }
  }

  method SortDays(log: Log) returns (days: seq<nat>)
    ensures days == NewestFirst(log.Keys)
    ensures forall d :: d in days <==> d in log
    ensures forall i, j :: 0 <= i < j < |days| ==> days[i] > days[j]
  {
    hide NewestFirst;
    NothingFirst();
    days := [];
    var todo := log.Keys;
    while todo != {}
      invariant todo <= log.Keys
      invariant NewestFirst(log.Keys) == days + NewestFirst(todo)
      decreases |todo|
    {
      var day := NewestOf(todo);
      NewestFirstUnfolds(todo, day);
      days := days + [day];
      todo := todo - {day};
    }
    DaysAreKeys(log.Keys);
    NewestFirstDescends(log.Keys);
  }

  lemma NothingFirst()
    ensures NewestFirst({}) == []
  {
  }

  /** The lines of some days in the order they were written, given the days newest first. */
  function Chronological(log: Log, days: seq<nat>): seq<string>
    requires forall d :: d in days ==> d in log
  {
    if |days| == 0 then [] else Chronological(log, days[1..]) + log[days[0]]
  }

  lemma {:induction false} DaysAreKeys(days: set<nat>)
    ensures forall d :: d in NewestFirst(days) <==> d in days
    decreases |days|
  {
    if days != {} {
      HasNewest(days);
      var day: nat :| IsNewest(days, day) && NewestFirst(days) == [day] + NewestFirst(days - {day});
      DaysAreKeys(days - {day});
    }
  }

  ghost function AllLines(log: Log): seq<string> {
    DaysAreKeys(log.Keys);
    Chronological(log, NewestFirst(log.Keys))
  }

  /** The lines of the two newest days. */
  ghost function RecentLines(log: Log): seq<string> {
    DaysAreKeys(log.Keys);
    var days := NewestFirst(log.Keys);
    Chronological(log, if |days| > 2 then days[..2] else days)
  }

  /** In terms of the files: those of the newest day and of the newest one before it, the older first. */
  lemma RecentLinesAre(log: Log, newest: nat)
    requires IsNewest(log.Keys, newest)
    ensures log.Keys == {newest} ==> RecentLines(log) == log[newest]
    ensures forall second :: IsNewest(log.Keys - {newest}, second) ==> RecentLines(log) == log[second] + log[newest]
  {
    DaysAreKeys(log.Keys);
    NewestFirstUnfolds(log.Keys, newest);
    var days, rest := NewestFirst(log.Keys), log.Keys - {newest};
    if log.Keys == {newest} {
      assert rest == {};
      assert days == [newest];
      OneDayReads(log, newest);
    }
    forall second | IsNewest(rest, second) ensures RecentLines(log) == log[second] + log[newest] {
      NewestFirstUnfolds(rest, second);
      assert days == [newest] + ([second] + NewestFirst(rest - {second}));
      assert (if |days| > 2 then days[..2] else days) == [newest, second];
      OneDayReads(log, second);
      assert [newest, second][1..] == [second];
    }
  }

  lemma OneDayReads(log: Log, day: nat)
    requires day in log
    ensures Chronological(log, [day]) == log[day]
  {
    assert [day][1..] == [] && Chronological(log, []) == [];
  }

  /** No file, no lines. */
  lemma NoRecentLines(log: Log)
    requires log == map[]
    ensures RecentLines(log) == []
  {
  }

  // ---- appending --------------------------------------------------------------------------

  function Since(log: Log, oldest: nat): Log {
    map d | d in log && d >= oldest :: log[d]
  }

  function UpTo(log: Log, newest: nat): Log {
    map d | d in log && d <= newest :: log[d]
  }

  function Prune(log: Log, today: nat, retention: nat): Log {
    var kept := if retention > 1 then retention else 1;
    Since(log, if today >= kept - 1 then today - (kept - 1) else 0)
  }

  predicate IsRetained(day: nat, today: nat, retention: nat) {
    today - day < if retention == 0 then 1 else retention
  }

  /** Today and the retained days before it survive, at least today, and nothing older. */
  lemma PrunesExactly(log: Log, today: nat, retention: nat)
    ensures forall d :: d in Prune(log, today, retention) <==> d in log && IsRetained(d, today, retention)
    ensures forall d :: d in Prune(log, today, retention) ==> Prune(log, today, retention)[d] == log[d]
  {
  }

  function LinesOn(log: Log, day: nat): seq<string> {
    if day in log then log[day] else []
  }

  /** One record: expired days go first, then the line is added to today's file. */
  function Append(log: Log, today: nat, retention: nat, line: string): Log {
    var pruned := Prune(log, today, retention);
    pruned[today := LinesOn(pruned, today) + [line]]
  }

  lemma {:induction false} ChronologicalFrame(a: Log, b: Log, days: seq<nat>)
    requires forall d :: d in days ==> d in a && d in b && a[d] == b[d]
    ensures Chronological(a, days) == Chronological(b, days)
  {
    if |days| > 0 {
      assert days[0] in days;
      ChronologicalFrame(a, b, days[1..]);
    }
  }

  /** The newest day of a log ends its lines. */
  lemma NewestDayLast(log: Log, day: nat)
    requires forall d :: d in log ==> d <= day
    ensures AllLines(log) == AllLines(log - {day}) + LinesOn(log, day)
  {
    if day in log {
      var rest := log - {day};
      HasNewest(log.Keys);
      var newest: nat :| && IsNewest(log.Keys, newest)
                         && NewestFirst(log.Keys) == [newest] + NewestFirst(log.Keys - {newest});
      assert newest == day && rest.Keys == log.Keys - {day};
      DaysAreKeys(log.Keys);
      DaysAreKeys(rest.Keys);
      var days := NewestFirst(log.Keys);
      assert days[1..] == NewestFirst(rest.Keys);
      ChronologicalFrame(log, rest, days[1..]);
    } else {
      assert log - {day} == log;
    }
  }

  ghost predicate IsSuffix<T>(a: seq<T>, b: seq<T>) {
    |a| <= |b| && a == b[|b| - |a|..]
  }

  lemma SuffixOfSum<T>(a: seq<T>, b: seq<T>, tail: seq<T>)
    requires IsSuffix(a, b)
    ensures IsSuffix(a + tail, b + tail)
  {
  }

  lemma SuffixOfSuffix<T>(a: seq<T>, b: seq<T>, c: seq<T>)
    requires IsSuffix(a, b) && IsSuffix(b, c)
    ensures IsSuffix(a, c)
  {
  }

  lemma SinceNewest(log: Log, oldest: nat, day: nat)
    requires IsNewest(log.Keys, day)
    ensures day < oldest ==> Since(log, oldest) == map[]
    ensures day >= oldest ==>
              && Since(log - {day}, oldest) == Since(log, oldest) - {day}
              && LinesOn(Since(log, oldest), day) == LinesOn(log, day)
              && forall d :: d in Since(log, oldest) ==> d <= day
  {
  }

  /** Reading a log is reading its days up to any one, and then the later days. */
  lemma {:induction false} SplitDays(log: Log, day: nat)
    ensures AllLines(log) == AllLines(UpTo(log, day)) + AllLines(Since(log, day + 1))
    decreases |log.Keys|
  {
    if forall d :: d in log ==> d <= day {
      assert UpTo(log, day) == log && Since(log, day + 1) == map[];
      NoLines(map[]);
    } else {
      HasNewest(log.Keys);
      var newest: nat :| IsNewest(log.Keys, newest);
      SinceNewest(log, day + 1, newest);
      NewestDayLast(log, newest);
      NewestDayLast(Since(log, day + 1), newest);
      assert (log - {newest}).Keys == log.Keys - {newest};
      SplitDays(log - {newest}, day);
      assert UpTo(log - {newest}, day) == UpTo(log, day);
    }
  }

  lemma NoLines(log: Log)
    requires log == map[]
    ensures AllLines(log) == []
  {
  }

  /**
   Appending adds one line after those of its day and every day before it, among
   what survives pruning; it comes last unless the log holds a later day.
   */
  lemma AppendAddsLast(log: Log, today: nat, retention: nat, line: string)
    ensures var pruned := Prune(log, today, retention);
            && AllLines(Append(log, today, retention, line))
               == AllLines(UpTo(pruned, today)) + [line] + AllLines(Since(pruned, today + 1))
            && AllLines(pruned) == AllLines(UpTo(pruned, today)) + AllLines(Since(pruned, today + 1))
            && ((forall d :: d in log ==> d <= today) ==>
                  AllLines(Append(log, today, retention, line)) == AllLines(pruned) + [line])
  {
    hide AllLines;
    var pruned, grown := Prune(log, today, retention), Append(log, today, retention, line);
    SplitDays(pruned, today);
    SplitDays(grown, today);
    NewestDayLast(UpTo(pruned, today), today);
    NewestDayLast(UpTo(grown, today), today);
    assert UpTo(grown, today) - {today} == UpTo(pruned, today) - {today};
    assert Since(grown, today + 1) == Since(pruned, today + 1);
    if forall d :: d in log ==> d <= today {
      assert Since(pruned, today + 1) == map[];
      NoLines(map[]);
    }
  }

  /** Pruning removes whole days from the old end. */
  lemma {:induction false} PruneKeepsSuffix(log: Log, oldest: nat)
    ensures IsSuffix(AllLines(Since(log, oldest)), AllLines(log))
    decreases |log.Keys|
  {
    if log.Keys != {} {
      HasNewest(log.Keys);
      var day: nat :| IsNewest(log.Keys, day);
      SinceNewest(log, oldest, day);
      if day >= oldest {
        NewestDayLast(log, day);
        NewestDayLast(Since(log, oldest), day);
        assert (log - {day}).Keys == log.Keys - {day};
        PruneKeepsSuffix(log - {day}, oldest);
        hide AllLines, Since;
        SuffixOfSum(AllLines(Since(log - {day}, oldest)), AllLines(log - {day}), LinesOn(log, day));
      } else {
        assert AllLines(map[]) == [];
      }
    } else {
      assert Since(log, oldest) == log;
    }
  }

  lemma PruneKeepsNewest(log: Log, today: nat, retention: nat)
    ensures IsSuffix(AllLines(Prune(log, today, retention)), AllLines(log))
  {
    hide AllLines;
    var kept := if retention > 1 then retention else 1;
    PruneKeepsSuffix(log, if today >= kept - 1 then today - (kept - 1) else 0);
  }

  /** Records made one after the other, each on its day. */
  function AppendAll(log: Log, retention: nat, entries: seq<(nat, string)>): Log {
    if |entries| == 0 then log
    else
      var last := entries[|entries| - 1];
      Append(AppendAll(log, retention, entries[..|entries| - 1]), last.0, retention, last.1)
  }

  function LinesOf(entries: seq<(nat, string)>): (lines: seq<string>)
    ensures |lines| == |entries|
  {
    seq(|entries|, i requires 0 <= i < |entries| => entries[i].1)
  }

  ghost predicate DaysAscend(entries: seq<(nat, string)>) {
    forall i, j :: 0 <= i <= j < |entries| ==> entries[i].0 <= entries[j].0
  }

  lemma AppendKeepsBound(log: Log, today: nat, retention: nat, line: string)
    requires forall d :: d in log ==> d <= today
    ensures forall d :: d in Append(log, today, retention, line) ==> d <= today
  {
  }

  lemma {:induction false} AppendAllBounded(retention: nat, entries: seq<(nat, string)>)
    requires DaysAscend(entries) && |entries| > 0
    ensures forall d :: d in AppendAll(map[], retention, entries) ==> d <= entries[|entries| - 1].0
  {
    var before, last := entries[..|entries| - 1], entries[|entries| - 1];
    if |before| > 0 { AppendAllBounded(retention, before); }
    AppendKeepsBound(AppendAll(map[], retention, before), last.0, retention, last.1);
  }

  lemma LinesOfOneMore(entries: seq<(nat, string)>)
    requires |entries| > 0
    ensures LinesOf(entries) == LinesOf(entries[..|entries| - 1]) + [entries[|entries| - 1].1]
  {
  }

  /** Appended on days that ascend, what is left is read back as the newest of what was appended, in order. */
  lemma {:induction false} AscendingAppends(retention: nat, entries: seq<(nat, string)>)
    requires DaysAscend(entries)
    ensures IsSuffix(AllLines(AppendAll(map[], retention, entries)), LinesOf(entries))
  {
    if |entries| == 0 {
      NoLines(map[]);
    } else {
      var before, last := entries[..|entries| - 1], entries[|entries| - 1];
      var log := AppendAll(map[], retention, before);
      if |before| > 0 { AppendAllBounded(retention, before); }
      assert DaysAscend(before) && forall d :: d in log ==> d <= last.0;
      hide Prune, Append, AllLines, IsSuffix, Since, UpTo, LinesOf, DaysAscend;
      AscendingAppends(retention, before);
      AppendAddsLast(log, last.0, retention, last.1);
      PruneKeepsNewest(log, last.0, retention);
      AppendedSuffix(AllLines(Prune(log, last.0, retention)), AllLines(log), LinesOf(before), last.1);
      LinesOfOneMore(entries);
    }
  }

  lemma AppendedSuffix(left: seq<string>, lines: seq<string>, all: seq<string>, line: string)
    requires IsSuffix(left, lines) && IsSuffix(lines, all)
    ensures IsSuffix(left + [line], all + [line])
  {
    SuffixOfSuffix(left, lines, all);
    SuffixOfSum(left, all, [line]);
  }

  // ---- any order of days ------------------------------------------------------------------

  function Retained(entries: seq<(nat, string)>, today: nat, retention: nat): seq<(nat, string)> {
    if |entries| == 0 then []
    else
      var rest := Retained(entries[..|entries| - 1], today, retention);
      if IsRetained(entries[|entries| - 1].0, today, retention) then rest + [entries[|entries| - 1]] else rest
  }

  /** The records left, in the order they were made: each new one drops those its day has expired. */
  function Survivors(retention: nat, entries: seq<(nat, string)>): seq<(nat, string)> {
    if |entries| == 0 then []
    else
      var last := entries[|entries| - 1];
      Retained(Survivors(retention, entries[..|entries| - 1]), last.0, retention) + [last]
  }

  function OnDay(entries: seq<(nat, string)>, day: nat): seq<(nat, string)> {
    if |entries| == 0 then []
    else
      var rest := OnDay(entries[..|entries| - 1], day);
      if entries[|entries| - 1].0 == day then rest + [entries[|entries| - 1]] else rest
  }

  function InsertByDay(entries: seq<(nat, string)>, entry: (nat, string)): seq<(nat, string)> {
    if |entries| == 0 || entries[|entries| - 1].0 <= entry.0 then entries + [entry]
    else InsertByDay(entries[..|entries| - 1], entry) + [entries[|entries| - 1]]
  }

  /** The records by day, those of one day in the order they were made. */
  function SortByDay(entries: seq<(nat, string)>): seq<(nat, string)> {
    if |entries| == 0 then []
    else InsertByDay(SortByDay(entries[..|entries| - 1]), entries[|entries| - 1])
  }

  lemma OnDayOfOneMore(entries: seq<(nat, string)>, entry: (nat, string), day: nat)
    ensures OnDay(entries + [entry], day) == OnDay(entries, day) + if entry.0 == day then [entry] else []
  {
    assert (entries + [entry])[..|entries|] == entries;
  }

  lemma {:induction false} InsertByDayIs(entries: seq<(nat, string)>, entry: (nat, string))
    requires DaysAscend(entries)
    ensures DaysAscend(InsertByDay(entries, entry))
    ensures forall e :: e in InsertByDay(entries, entry) <==> e in entries || e == entry
  {
    if |entries| > 0 && entries[|entries| - 1].0 > entry.0 {
      var init, last := entries[..|entries| - 1], entries[|entries| - 1];
      InsertByDayIs(init, entry);
      var inserted := InsertByDay(init, entry);
      assert entries == init + [last];
      assert forall e :: e in inserted ==> e.0 <= last.0;
      assert forall i :: 0 <= i < |inserted| ==> inserted[i] in inserted;
    }
  }

  lemma {:induction false} InsertByDayOn(entries: seq<(nat, string)>, entry: (nat, string), day: nat)
    ensures OnDay(InsertByDay(entries, entry), day) == OnDay(entries, day) + if entry.0 == day then [entry] else []
  {
    if |entries| == 0 || entries[|entries| - 1].0 <= entry.0 {
      OnDayOfOneMore(entries, entry, day);
    } else {
      var init, last := entries[..|entries| - 1], entries[|entries| - 1];
      InsertByDayOn(init, entry, day);
      OnDayOfOneMore(InsertByDay(init, entry), last, day);
    }
  }

  /** `SortByDay` sorts: the days ascend, and the records are the same. */
  lemma {:induction false} SortByDayIs(entries: seq<(nat, string)>)
    ensures DaysAscend(SortByDay(entries))
    ensures forall e :: e in SortByDay(entries) <==> e in entries
  {
    if |entries| > 0 {
      var init, last := entries[..|entries| - 1], entries[|entries| - 1];
      SortByDayIs(init);
      InsertByDayIs(SortByDay(init), last);
      assert entries == init + [last];
    }
  }

  /** And it is stable: the records of each day stay as they were. */
  lemma {:induction false} SortByDayStable(entries: seq<(nat, string)>, day: nat)
    ensures OnDay(SortByDay(entries), day) == OnDay(entries, day)
  {
    if |entries| > 0 {
      SortByDayStable(entries[..|entries| - 1], day);
      InsertByDayOn(SortByDay(entries[..|entries| - 1]), entries[|entries| - 1], day);
    }
  }

  lemma {:induction false} RetainedOnDay(entries: seq<(nat, string)>, today: nat, retention: nat, day: nat)
    ensures OnDay(Retained(entries, today, retention), day)
         == if IsRetained(day, today, retention) then OnDay(entries, day) else []
  {
    if |entries| > 0 {
      var init, last := entries[..|entries| - 1], entries[|entries| - 1];
      RetainedOnDay(init, today, retention, day);
      OnDayOfOneMore(Retained(init, today, retention), last, day);
    }
  }

  /** Each day file holds the surviving records of its day, and there is no file for a day without any. */
  lemma {:induction false} FilesHoldSurvivors(retention: nat, entries: seq<(nat, string)>, day: nat)
    ensures var log, left := AppendAll(map[], retention, entries), OnDay(Survivors(retention, entries), day);
            (day in log <==> left != []) && LinesOn(log, day) == LinesOf(left)
  {
    if |entries| > 0 {
      var before, last := entries[..|entries| - 1], entries[|entries| - 1];
      FilesHoldSurvivors(retention, before, day);
      var log, left := AppendAll(map[], retention, before), Survivors(retention, before);
      PrunesExactly(log, last.0, retention);
      RetainedOnDay(left, last.0, retention, day);
      OnDayOfOneMore(Retained(left, last.0, retention), last, day);
    }
  }

  /** The files hold these records, day by day. */
  ghost predicate FilesHold(log: Log, entries: seq<(nat, string)>) {
    forall day: nat :: (day in log <==> OnDay(entries, day) != []) && LinesOn(log, day) == LinesOf(OnDay(entries, day))
  }

  lemma {:induction false} OnNoDay(entries: seq<(nat, string)>, day: nat)
    requires forall e :: e in entries ==> e.0 != day
    ensures OnDay(entries, day) == []
  {
    if |entries| > 0 {
      assert entries[|entries| - 1] in entries;
      OnNoDay(entries[..|entries| - 1], day);
    }
  }

  /** The log without its last record: that line goes, and its file with it if it was the only one. */
  function WithoutLast(log: Log, entries: seq<(nat, string)>): Log
    requires |entries| > 0
  {
    var day := entries[|entries| - 1].0;
    var left := OnDay(entries[..|entries| - 1], day);
    if left == [] then log - {day} else log[day := LinesOf(left)]
  }

  lemma WithoutLastHolds(log: Log, entries: seq<(nat, string)>)
    requires |entries| > 0 && FilesHold(log, entries)
    ensures FilesHold(WithoutLast(log, entries), entries[..|entries| - 1])
  {
    var init, last := entries[..|entries| - 1], entries[|entries| - 1];
    assert entries == init + [last];
    var before := WithoutLast(log, entries);
    forall day: nat
      ensures (day in before <==> OnDay(init, day) != []) && LinesOn(before, day) == LinesOf(OnDay(init, day))
    {
      OnDayOfOneMore(init, last, day);
    }
  }

  lemma FilesBounded(log: Log, entries: seq<(nat, string)>)
    requires DaysAscend(entries) && FilesHold(log, entries) && |entries| > 0
    ensures forall d :: d in log ==> d <= entries[|entries| - 1].0
  {
    forall d | d in log ensures d <= entries[|entries| - 1].0 {
      if d > entries[|entries| - 1].0 { OnNoDay(entries, d); }
    }
  }

  lemma LastLineOf(log: Log, entries: seq<(nat, string)>)
    requires |entries| > 0 && FilesHold(log, entries)
    ensures var last, before := entries[|entries| - 1], WithoutLast(log, entries);
            && LinesOn(log, last.0) == LinesOn(before, last.0) + [last.1] && log - {last.0} == before - {last.0}
            && before.Keys <= log.Keys
  {
    var last := entries[|entries| - 1];
    var left := OnDay(entries[..|entries| - 1], last.0);
    assert OnDay(entries, last.0) == left + [last];
    assert LinesOf(left + [last]) == LinesOf(left) + [last.1];
    assert left == [] ==> LinesOf(left) == [];
  }

  lemma NoFiles(log: Log)
    requires FilesHold(log, [])
    ensures AllLines(log) == []
  {
    assert forall day: nat :: OnDay([], day) == [];
    assert log == map[];
    NoLines(log);
  }

  /** Files that hold records whose days ascend read back as these records. */
  lemma {:induction false} AscendingReadBack(log: Log, entries: seq<(nat, string)>)
    requires DaysAscend(entries) && FilesHold(log, entries)
    ensures AllLines(log) == LinesOf(entries)
  {
    if |entries| == 0 {
      NoFiles(log);
    } else {
      hide AllLines, FilesHold, OnDay, WithoutLast, LinesOf;
      var init, last := entries[..|entries| - 1], entries[|entries| - 1];
      var before := WithoutLast(log, entries);
      assert DaysAscend(init);
      hide DaysAscend;
      WithoutLastHolds(log, entries);
      AscendingReadBack(before, init);
      FilesBounded(log, entries);
      LastLineOf(log, entries);
      NewestDayLast(log, last.0);
      NewestDayLast(before, last.0);
      LinesOfOneMore(entries);
    }
  }

  lemma SortedFilesHold(retention: nat, entries: seq<(nat, string)>)
    ensures FilesHold(AppendAll(map[], retention, entries), SortByDay(Survivors(retention, entries)))
  {
    var log, sorted := AppendAll(map[], retention, entries), SortByDay(Survivors(retention, entries));
    forall day: nat
      ensures (day in log <==> OnDay(sorted, day) != []) && LinesOn(log, day) == LinesOf(OnDay(sorted, day))
    {
      FilesHoldSurvivors(retention, entries, day);
      SortByDayStable(Survivors(retention, entries), day);
    }
  }

  /**
   However records split into day files, and whatever the clock does: reading the
   files back gives the surviving records, stably sorted by day. On days that
   ascend these are the newest records, in the order they were made.
   */
  lemma AppendedLines(retention: nat, entries: seq<(nat, string)>)
    ensures AllLines(AppendAll(map[], retention, entries)) == LinesOf(SortByDay(Survivors(retention, entries)))
    ensures DaysAscend(entries) ==> IsSuffix(AllLines(AppendAll(map[], retention, entries)), LinesOf(entries))
  {
    var left := Survivors(retention, entries);
    SortByDayIs(left);
    SortedFilesHold(retention, entries);
    hide AllLines, AppendAll, Survivors, SortByDay, LinesOf, FilesHold;
    AscendingReadBack(AppendAll(map[], retention, entries), SortByDay(left));
    if DaysAscend(entries) { AscendingAppends(retention, entries); }
  }

  lemma {:induction false} RetainedAreEntries(entries: seq<(nat, string)>, today: nat, retention: nat)
    ensures forall e :: e in Retained(entries, today, retention) ==> e in entries
  {
    if |entries| > 0 { RetainedAreEntries(entries[..|entries| - 1], today, retention); }
  }

  lemma {:induction false} SurvivorsAreEntries(retention: nat, entries: seq<(nat, string)>)
    ensures forall e :: e in Survivors(retention, entries) ==> e in entries
  {
    if |entries| > 0 {
      var before := entries[..|entries| - 1];
      SurvivorsAreEntries(retention, before);
      RetainedAreEntries(Survivors(retention, before), entries[|entries| - 1].0, retention);
    }
  }

  /** Nothing is ever read back but what was appended. */
  lemma ReadBackWasAppended(retention: nat, entries: seq<(nat, string)>)
    ensures forall line :: line in AllLines(AppendAll(map[], retention, entries)) ==> line in LinesOf(entries)
  {
    var left := Survivors(retention, entries);
    AppendedLines(retention, entries);
    SurvivorsAreEntries(retention, entries);
    SortByDayIs(left);
    hide AllLines, AppendAll, Survivors, SortByDay;
    forall line | line in LinesOf(SortByDay(left)) ensures line in LinesOf(entries) {
      var i :| 0 <= i < |SortByDay(left)| && SortByDay(left)[i].1 == line;
      var e := SortByDay(left)[i];
      assert e in SortByDay(left);
      var j :| 0 <= j < |entries| && entries[j] == e;
      assert LinesOf(entries)[j] == line;
    }
  }

  lemma {:induction false} ChronologicalHas(log: Log, days: seq<nat>, line: string)
    requires forall d :: d in days ==> d in log
    ensures line in Chronological(log, days) <==> exists d :: d in days && line in log[d]
  {
    if |days| > 0 {
      assert days[0] in days;
      ChronologicalHas(log, days[1..], line);
    }
  }

  lemma RecentAreLines(log: Log)
    ensures forall line :: line in RecentLines(log) ==> line in AllLines(log)
  {
    DaysAreKeys(log.Keys);
    var days := NewestFirst(log.Keys);
    forall line | line in RecentLines(log) ensures line in AllLines(log) {
      ChronologicalHas(log, if |days| > 2 then days[..2] else days, line);
      ChronologicalHas(log, days, line);
    }
  }
}
