/** What a run writes to the log file, as abstract entries, and the
    verbosity gate in front of it (TacitDynDns.cpp:61-80 and the ttfPrintf
    call sites); the one-character run summary of Concise mode (373-389); and
    the "first run of a new day" test (103-116). */
module Logging {
  import opened Config

  /** One thing the updater can write to the log. */
  datatype LogEntry =
    | UsingOverride(record: Record, ip: string)              // 264, 276
    | Detected(record: Record, ip: string)                   // 290, 337
    | CurlCmd(command: string)                               // 415
    | CurlReply(exitCode: nat, response: string)             // 416
    | Updated(record: Record, ip: string, domain: string)    // 304, 351
    | UpdateFailed(record: Record, ip: string, domain: string)  // 311, 358
    | Skipped(record: Record, ip: string, domain: string)    // 316, 363
    | NoValidAddress(record: Record, count: nat)             // 323, 370
    | RunsPrefix                                             // 377-378
    | RunChar(code: char)                                    // 388
  {
    /** The Concise-mode output, as opposed to a log line. */
    predicate IsSummary() {
      RunsPrefix? || RunChar?
    }

    /** The verbosity a log line needs. */
    function Level(): Verbosity {
      match this
      case UsingOverride(_, _) => Normal
      case Detected(_, _) => Full
      case CurlCmd(_) => Full
      case CurlReply(_, _) => Full
      case Updated(_, _, _) => Minimal
      case UpdateFailed(_, _, _) => Full
      case Skipped(_, _, _) => Normal
      case NoValidAddress(_, _) => Full
      case RunsPrefix => Concise
      case RunChar(_) => Concise
    }

    /** Is this entry written at verbosity `v`?  Log lines are written at
        their level and above; the summary only at exactly Concise. */
    predicate ShownAt(v: Verbosity) {
      if IsSummary() then v == Concise else v.AtLeast(Level())
    }
  }

  /** The entries of `es` that verbosity `v` lets through, in order. */
  function Visible(v: Verbosity, es: seq<LogEntry>): (r: seq<LogEntry>)
    ensures |r| <= |es|
    decreases |es|
  {
    if es == [] then []
    else
      var last := es[|es| - 1];
      Visible(v, es[..|es| - 1]) + (if last.ShownAt(v) then [last] else [])
  }

  /** The filter keeps exactly the entries shown at `v`. */
  lemma {:induction false} VisibleMembers(v: Verbosity, es: seq<LogEntry>)
    ensures forall e :: e in Visible(v, es) ==> e in es && e.ShownAt(v)
    ensures forall e :: e in es && e.ShownAt(v) ==> e in Visible(v, es)
    decreases |es|
  {
    if es != [] {
      VisibleMembers(v, es[..|es| - 1]);
      assert es == es[..|es| - 1] + [es[|es| - 1]];
    }
  }

  lemma {:induction false} VisibleConcat(v: Verbosity, a: seq<LogEntry>, b: seq<LogEntry>)
    ensures Visible(v, a + b) == Visible(v, a) + Visible(v, b)
    decreases |b|
  {
    if b != [] {
      var n := |b| - 1;
      assert (a + b)[..|a + b| - 1] == a + b[..n];
      assert (a + b)[|a + b| - 1] == b[n];
      VisibleConcat(v, a, b[..n]);
      var tail := if b[n].ShownAt(v) then [b[n]] else [];
      calc {
        Visible(v, a + b);
        Visible(v, a + b[..n]) + tail;
        Visible(v, a) + Visible(v, b[..n]) + tail;
        Visible(v, a) + Visible(v, b);
      }
    } else {
      assert a + b == a;
    }
  }

  /** Writing the entries of `a` and then those of `b` to a log leaves what
      writing `a + b` at once leaves. */
  lemma AppendVisible(log: seq<LogEntry>, v: Verbosity, a: seq<LogEntry>, b: seq<LogEntry>)
    ensures log + Visible(v, a) + Visible(v, b) == log + Visible(v, a + b)
  {
    VisibleConcat(v, a, b);
  }

  /** At verbosity None nothing at all is written. */
  lemma NoneIsSilent(es: seq<LogEntry>)
    ensures Visible(None, es) == []
  {
  }

  /** Concise mode writes the run summary and no log line; the other line
      modes never write the summary. */
  lemma ConciseIsSeparate(v: Verbosity, es: seq<LogEntry>)
    ensures forall e :: e in Visible(Concise, es) ==> e.IsSummary()
    ensures v.AtLeast(Minimal) ==> forall e :: e in Visible(v, es) ==> !e.IsSummary()
  {
    VisibleMembers(Concise, es);
    VisibleMembers(v, es);
  }

  /** Above Concise the log is cumulative: what a lower line level writes is
      exactly what a higher one writes, filtered once more. */
  lemma {:induction false} VisibleNested(v: Verbosity, w: Verbosity, es: seq<LogEntry>)
    requires v.AtLeast(Minimal) && w.AtLeast(v)
    ensures Visible(v, Visible(w, es)) == Visible(v, es)
    decreases |es|
  {
    if es != [] {
      var init := es[..|es| - 1];
      var last := es[|es| - 1];
      VisibleNested(v, w, init);
      var tail := if last.ShownAt(w) then [last] else [];
      VisibleConcat(v, Visible(w, init), tail);
      if last.ShownAt(w) {
        assert Visible(v, tail) == Visible(v, []) + (if last.ShownAt(v) then [last] else []);
      } else {
        assert !last.ShownAt(v);
      }
    }
  }

  // ---------------------------------------------------------------------
  // Run summary character

  /** The character TacitDynDns.cpp:380-386 picks, as written: the test at
      line 381 reads `anyUpdateIPV4` twice. */
  function SummaryCharAsWritten(anyIPV4: bool, anyIPV6: bool): char {
    if anyIPV4 && anyIPV4 then 'A'
    else if anyIPV4 then '4'
    else if anyIPV6 then '6'
    else '-'
  }

  /** As written, "4" is never produced and "A" no longer says that both
      families were updated. */
  lemma SummaryCharAsWrittenLosesFamily()
    ensures forall a4, a6 :: SummaryCharAsWritten(a4, a6) != '4'
    ensures SummaryCharAsWritten(true, false) == SummaryCharAsWritten(true, true) == 'A'
  {
  }

  /** The character the comment at TacitDynDns.cpp:66-69 describes: "A"
      for both families, "4" or "6" for one, "-" for none. */
  function SummaryChar(anyIPV4: bool, anyIPV6: bool): (c: char)
    ensures c == 'A' <==> anyIPV4 && anyIPV6
    ensures c == '4' <==> anyIPV4 && !anyIPV6
    ensures c == '6' <==> !anyIPV4 && anyIPV6
    ensures c == '-' <==> !anyIPV4 && !anyIPV6
  {
    if anyIPV4 && anyIPV6 then 'A'
    else if anyIPV4 then '4'
    else if anyIPV6 then '6'
    else '-'
  }

  /** A reader of the log recovers the two flags from the character. */
  function ReadSummaryChar(c: char): (bool, bool) {
    (c == 'A' || c == '4', c == 'A' || c == '6')
  }

  lemma SummaryCharRoundTrip(anyIPV4: bool, anyIPV6: bool)
    ensures ReadSummaryChar(SummaryChar(anyIPV4, anyIPV6)) == (anyIPV4, anyIPV6)
  {
  }

  /** The two versions differ exactly when only IPv4 was updated. */
  lemma SummaryCharAsWrittenDiffers(anyIPV4: bool, anyIPV6: bool)
    ensures SummaryCharAsWritten(anyIPV4, anyIPV6) != SummaryChar(anyIPV4, anyIPV6) <==> anyIPV4 && !anyIPV6
  {
  }

  // ---------------------------------------------------------------------
  // New-day test

  /** Time stamps count 100 ns units; this many make one day. */
  const TicksPerDay: nat := 10 * 1000000 * 3600 * 24

  function DayNumber(t: nat): nat {
    t / TicksPerDay
  }

  /** TacitDynDns.cpp:103-116, with the file-system answers and the clock as
      inputs: a missing log file, a failed info lookup, or a last change on
      another day number than now. */
  function IsLogNewDay(logExists: bool, infoFound: bool, modificationTime: nat, now: nat): bool {
    if !logExists then true
    else if !infoFound then true
    else DayNumber(now) != DayNumber(modificationTime)
  }

  lemma DayNumberBounds(t: nat)
    ensures DayNumber(t) * TicksPerDay <= t < DayNumber(t) * TicksPerDay + TicksPerDay
  {
  }

  /** With the log's time known, the run starts a new day exactly when the
      log's last change lies outside the day window that contains now. */
  lemma NewDayWindow(modificationTime: nat, now: nat)
    ensures !IsLogNewDay(true, true, modificationTime, now) <==>
      DayNumber(now) * TicksPerDay <= modificationTime < DayNumber(now) * TicksPerDay + TicksPerDay
  {
    DayNumberBounds(modificationTime);
  }

  /** A log last changed a full day or more ago always starts a new day. */
  lemma NewDayAfterFullDay(modificationTime: nat, now: nat)
    requires now >= modificationTime + TicksPerDay
    ensures IsLogNewDay(true, true, modificationTime, now)
  {
    NewDayWindow(modificationTime, now);
    DayNumberBounds(now);
  }
}
