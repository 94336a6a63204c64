/** The write-outcome journal: a status record and one pending entry per failed commission
    (tools/_shared/write_journal.py:83-168). Commissions stand for their file names, which the
    digest of tool and input makes unique. */
module WriteJournal {
  import opened GraphStore
  import opened Wrappers

  /** One write request: of a node, of an edge, or of another tool of the librarian. */
  datatype Commission = NodeWrite(node: NodeInput) | EdgeWrite(edge: EdgeInput) | Other(tool: string, payload: string)

  function ToolOf(c: Commission): string {
    match c
    case NodeWrite(_) => "librarian.upsert_node"
    case EdgeWrite(_) => "librarian.upsert_edge"
    case Other(tool, _) => tool
  }

  const MAX_ERROR_CHARS := 500

  function Clip(error: string): (kept: string)
    ensures IsStart(kept, error)
  {
    if |error| <= MAX_ERROR_CHARS then error else error[..MAX_ERROR_CHARS]
  }

  /** The first 500 characters of a message, or all of a shorter one. */
  ghost predicate IsStart(kept: string, error: string) {
    kept <= error && |kept| == if |error| < 500 then |error| else 500
  }

  datatype Status = Status(
    updatedAt: Option<int>, lastOkAt: Option<int>, lastOkTool: string,
    lastErrorAt: Option<int>, lastErrorTool: string, lastError: string,
    consecutiveFailures: nat, okTotal: nat, failedTotal: nat)

  const NO_STATUS := Status(None, None, "", None, "", "", 0, 0, 0)

  datatype Entry = Entry(firstFailedAt: int, lastFailedAt: int, attempts: nat, lastError: string)

  datatype State = State(status: Status, pending: map<Commission, Entry>)

  const EMPTY := State(NO_STATUS, map[])

  /** The I/O errors one call can meet: an unreadable file reads as empty, a failed write or unlink
      ends the call and leaves the old file. */
  datatype Faults = Faults(statusUnread: bool, statusUnwritten: bool, entryUnread: bool, entryUnwritten: bool)

  const NO_FAULTS := Faults(false, false, false, false)

  /** The outcome of one write as the tool reports it. */
  datatype Event = Success(c: Commission, at: int) | Failure(c: Commission, at: int, error: string)

  // ---------- one call ----------

  function OkStatus(st: Status, c: Commission, now: int): Status {
    st.(updatedAt := Some(now), lastOkAt := Some(now), lastOkTool := ToolOf(c),
        consecutiveFailures := 0, okTotal := st.okTotal + 1)
  }

  function ErrorStatus(st: Status, c: Commission, now: int, error: string): Status {
    st.(updatedAt := Some(now), lastErrorAt := Some(now), lastErrorTool := ToolOf(c), lastError := Clip(error),
        consecutiveFailures := st.consecutiveFailures + 1, failedTotal := st.failedTotal + 1)
  }

  function FailedEntry(prior: Option<Entry>, now: int, error: string): Entry {
    match prior
    case None => Entry(now, now, 1, Clip(error))
    case Some(p) => Entry(p.firstFailedAt, now, p.attempts + 1, Clip(error))
  }

  /** What one recorded outcome does to the files. */
  function Recorded(s: State, e: Event, f: Faults): State {
    var st := if f.statusUnread then NO_STATUS else s.status;
    if f.statusUnwritten then s
    else
      match e
      case Success(c, at) =>
        State(OkStatus(st, c, at), if f.entryUnwritten then s.pending else s.pending - {c})
      case Failure(c, at, error) =>
        var prior := if c in s.pending && !f.entryUnread then Some(s.pending[c]) else None;
        State(ErrorStatus(st, c, at, error),
              if f.entryUnwritten then s.pending else s.pending[c := FailedEntry(prior, at, error)])
  }

  class Journal {
    var status: Status
    var pending: map<Commission, Entry>

    constructor ()
      ensures Files() == EMPTY
    {
      status, pending := NO_STATUS, map[];
    }

    function Files(): State
      reads this
    {
      State(status, pending)
    }

    method UpdateStatus(ok: bool, c: Commission, error: string, now: int, f: Faults) returns (written: bool)
      modifies this`status
      ensures written <==> !f.statusUnwritten
      ensures status == if f.statusUnwritten then old(status)
                        else var st := if f.statusUnread then NO_STATUS else old(status);
                             if ok then OkStatus(st, c, now) else ErrorStatus(st, c, now, error)
    {
      var st := if f.statusUnread then NO_STATUS else status;
      st := st.(updatedAt := Some(now));
      if ok {
        st := st.(lastOkAt := Some(now), lastOkTool := ToolOf(c), consecutiveFailures := 0, okTotal := st.okTotal + 1);
      } else {
        st := st.(lastErrorAt := Some(now), lastErrorTool := ToolOf(c), lastError := Clip(error),
                  consecutiveFailures := st.consecutiveFailures + 1, failedTotal := st.failedTotal + 1);
      }
      if f.statusUnwritten { return false; }
      status := st;
      written := true;
    }

    /** Resets the failure streak and clears the entry of this very commission. */
    method RecordSuccess(c: Commission, now: int, f: Faults)
      modifies this
      ensures Files() == Recorded(old(Files()), Success(c, now), f)
    {
      var written := UpdateStatus(true, c, "", now, f);
      if !written { return; }
      if c in pending && !f.entryUnwritten {
        pending := pending - {c};
      }
    }

    /** Keeps the commission for replay; tells whether it could be saved. */
    method RecordFailure(c: Commission, error: string, now: int, f: Faults) returns (saved: bool)
      modifies this
      ensures Files() == Recorded(old(Files()), Failure(c, now, error), f)
      ensures saved <==> !f.statusUnwritten && !f.entryUnwritten
      ensures saved ==> c in pending
    {
      var written := UpdateStatus(false, c, error, now, f);
      if !written { return false; }
      var prior := if c in pending && !f.entryUnread then Some(pending[c]) else None;
      if f.entryUnwritten { return false; }
      pending := pending[c := FailedEntry(prior, now, error)];
      saved := true;
    }
  }

  // ---------- runs without faults ----------

  /** The files after a run of outcomes, oldest first. */
  function After(h: seq<Event>): State {
    if h == [] then EMPTY else Recorded(After(h[..|h| - 1]), h[|h| - 1], NO_FAULTS)
  }

  /** The failures of `c` with no success of `c` after them. */
  ghost function OpenFailures(h: seq<Event>, c: Commission): set<nat> {
    set k | 0 <= k < |h| && h[k].Failure? && h[k].c == c && forall m | k < m < |h| :: !(h[m].Success? && h[m].c == c)
  }

  /** The failures of anything with no success of anything after them. */
  ghost function Streak(h: seq<Event>): set<nat> {
    set k | 0 <= k < |h| && h[k].Failure? && forall m | k < m < |h| :: h[m].Failure?
  }

  ghost function Successes(h: seq<Event>): set<nat> { set k | 0 <= k < |h| && h[k].Success? }

  ghost function Failures(h: seq<Event>): set<nat> { set k | 0 <= k < |h| && h[k].Failure? }

  ghost predicate LatestFails(h: seq<Event>, c: Commission) {
    exists k :: 0 <= k < |h| && h[k].Failure? && h[k].c == c && forall m | k < m < |h| :: h[m].c != c
  }

  ghost predicate EarliestAt(h: seq<Event>, ks: set<nat>, at: int) {
    exists k :: k in ks && k < |h| && h[k].at == at && forall m | m in ks :: k <= m
  }

  ghost predicate LatestAt(h: seq<Event>, ks: set<nat>, at: int, error: string) {
    exists k ::
        k in ks && k < |h| && h[k].Failure? && h[k].at == at && IsStart(error, h[k].error)
          && forall m | m in ks :: m <= k
  }

  /** An entry tells how often its commission failed since its last success, when first, when last and why. */
  ghost predicate TellsFailures(h: seq<Event>, c: Commission, e: Entry) {
    && e.attempts == |OpenFailures(h, c)|
    && EarliestAt(h, OpenFailures(h, c), e.firstFailedAt)
    && LatestAt(h, OpenFailures(h, c), e.lastFailedAt, e.lastError)
  }

  lemma OpenFailuresStep(h: seq<Event>, e: Event, c: Commission)
    ensures OpenFailures(h + [e], c) ==
            if e.c != c then OpenFailures(h, c) else if e.Success? then {} else OpenFailures(h, c) + {|h|}
    ensures forall k | k in OpenFailures(h, c) :: (h + [e])[k] == h[k]
  {
    var t := h + [e];
    assert t[|h|] == e && forall k | 0 <= k < |h| :: t[k] == h[k];
    forall k | 0 <= k < |h| && e.c == c && e.Success? ensures k !in OpenFailures(t, c) {
      assert t[|h|].Success? && t[|h|].c == c;
    }
  }

  lemma CountersStep(h: seq<Event>, e: Event)
    ensures Streak(h + [e]) == if e.Success? then {} else Streak(h) + {|h|}
    ensures Successes(h + [e]) == Successes(h) + if e.Success? then {|h|} else {}
    ensures Failures(h + [e]) == Failures(h) + if e.Failure? then {|h|} else {}
  {
    var t := h + [e];
    assert t[|h|] == e && forall k | 0 <= k < |h| :: t[k] == h[k];
    forall k | 0 <= k < |h| && e.Success? ensures k !in Streak(t) { assert !t[|h|].Failure?; }
  }

  lemma EarliestStays(h: seq<Event>, e: Event, ks: set<nat>, at: int)
    requires EarliestAt(h, ks, at)
    ensures EarliestAt(h + [e], ks, at) && EarliestAt(h + [e], ks + {|h|}, at)
  {
    var k :| k in ks && k < |h| && h[k].at == at && forall m | m in ks :: k <= m;
    assert (h + [e])[k] == h[k];
  }

  lemma LatestStays(h: seq<Event>, e: Event, ks: set<nat>, at: int, error: string)
    requires LatestAt(h, ks, at, error)
    ensures LatestAt(h + [e], ks, at, error)
  {
    var k :| k in ks && k < |h| && h[k].Failure? && h[k].at == at && IsStart(error, h[k].error)
      && forall m | m in ks :: m <= k;
    assert (h + [e])[k] == h[k];
  }

  lemma TellsStep(h: seq<Event>, c: Commission, prior: Option<Entry>, at: int, error: string)
    requires prior.Some? ==> TellsFailures(h, c, prior.value)
    requires prior.None? ==> OpenFailures(h, c) == {}
    ensures TellsFailures(h + [Failure(c, at, error)], c, FailedEntry(prior, at, error))
  {
    var e := Failure(c, at, error);
    var t, ks := h + [e], OpenFailures(h, c);
    OpenFailuresStep(h, e, c);
    assert t[|h|] == e && |h| !in ks;
    assert LatestAt(t, ks + {|h|}, at, Clip(error));
    if prior.Some? {
      EarliestStays(h, e, ks, prior.value.firstFailedAt);
    } else {
      assert EarliestAt(t, {|h|}, at);
    }
  }

  lemma TellsOthers(h: seq<Event>, e: Event, c: Commission, x: Entry)
    requires e.c != c && TellsFailures(h, c, x)
    ensures TellsFailures(h + [e], c, x)
  {
    OpenFailuresStep(h, e, c);
    EarliestStays(h, e, OpenFailures(h, c), x.firstFailedAt);
    LatestStays(h, e, OpenFailures(h, c), x.lastFailedAt, x.lastError);
  }

  /** Pending holds exactly the commissions with a failure since their last success, each with the
      number and times of those failures. */
  lemma {:induction false} PendingTellsHistory(h: seq<Event>, c: Commission)
    ensures c in After(h).pending <==> OpenFailures(h, c) != {}
    ensures c in After(h).pending ==> TellsFailures(h, c, After(h).pending[c])
    decreases |h|
  {
    if h != [] {
      var init, e := h[..|h| - 1], h[|h| - 1];
      assert h == init + [e];
      PendingTellsHistory(init, c);
      OpenFailuresStep(init, e, c);
      if e.c != c {
        if c in After(init).pending { TellsOthers(init, e, c, After(init).pending[c]); }
      } else if e.Failure? {
        TellsStep(init, c, if c in After(init).pending then Some(After(init).pending[c]) else None, e.at, e.error);
      }
    }
  }

  /** A commission has open failures exactly when its latest outcome is a failure. */
  lemma OpenMeansLatestFails(h: seq<Event>, c: Commission)
    ensures OpenFailures(h, c) != {} <==> LatestFails(h, c)
  {
    if LatestFails(h, c) {
      var k :| 0 <= k < |h| && h[k].Failure? && h[k].c == c && forall m | k < m < |h| :: h[m].c != c;
      assert k in OpenFailures(h, c);
    }
    if OpenFailures(h, c) != {} {
      var k :| k in OpenFailures(h, c);
      var last := LatestOf(h, c, k);
    }
  }

  lemma {:induction false} LatestOf(h: seq<Event>, c: Commission, k: nat) returns (i: nat)
    requires k < |h| && h[k].c == c
    ensures k <= i < |h| && h[i].c == c && forall m | i < m < |h| :: h[m].c != c
    decreases |h| - k
  {
    if m :| k < m < |h| && h[m].c == c { i := LatestOf(h, c, m); } else { i := k; }
  }

  /** The counters: failures since the last success of anything, and all successes and failures. */
  lemma {:induction false} CountersTellHistory(h: seq<Event>)
    ensures After(h).status.consecutiveFailures == |Streak(h)|
    ensures After(h).status.okTotal == |Successes(h)| && After(h).status.failedTotal == |Failures(h)|
    decreases |h|
  {
    if h != [] {
      var init, e := h[..|h| - 1], h[|h| - 1];
      assert h == init + [e];
      CountersTellHistory(init);
      CountersStep(init, e);
    } else {
      assert Streak(h) == {} && Successes(h) == {} && Failures(h) == {};
    }
  }

  /** `at`, `tool` and `error` belong to the last event among `ks`, or there is none. */
  ghost predicate OfLatest(h: seq<Event>, ks: set<nat>, at: Option<int>, tool: string, error: string) {
    if ks == {} then at == None && tool == "" && error == ""
    else exists k :: k in ks && k < |h| && (forall m | m in ks :: m <= k)
           && at == Some(h[k].at) && IsToolOf(tool, h[k].c)
           && if h[k].Failure? then IsStart(error, h[k].error) else error == ""
  }

  ghost predicate IsToolOf(tool: string, c: Commission) {
    match c
    case NodeWrite(_) => tool == "librarian.upsert_node"
    case EdgeWrite(_) => tool == "librarian.upsert_edge"
    case Other(name, _) => tool == name
  }

  lemma OfLatestStep(h: seq<Event>, e: Event, ks: set<nat>, at: Option<int>, tool: string, error: string)
    requires forall k | k in ks :: k < |h|
    requires OfLatest(h, ks, at, tool, error)
    ensures OfLatest(h + [e], ks, at, tool, error)
    ensures OfLatest(h + [e], ks + {|h|}, Some(e.at), ToolOf(e.c), if e.Failure? then Clip(e.error) else "")
  {
    var t := h + [e];
    assert t[|h|] == e && |h| in ks + {|h|};
    if ks != {} {
      var k :| k in ks && k < |h| && (forall m | m in ks :: m <= k)
               && at == Some(h[k].at) && IsToolOf(tool, h[k].c)
               && if h[k].Failure? then IsStart(error, h[k].error) else error == "";
      assert t[k] == h[k];
    }
  }

  lemma {:induction false} LatestOkIsTold(h: seq<Event>)
    ensures OfLatest(h, Successes(h), After(h).status.lastOkAt, After(h).status.lastOkTool, "")
    decreases |h|
  {
    if h == [] {
      assert Successes(h) == {};
    } else {
      var init, e := h[..|h| - 1], h[|h| - 1];
      assert h == init + [e];
      LatestOkIsTold(init);
      CountersStep(init, e);
      OfLatestStep(init, e, Successes(init), After(init).status.lastOkAt, After(init).status.lastOkTool, "");
    }
  }

  lemma {:induction false} LatestErrorIsTold(h: seq<Event>)
    ensures var st := After(h).status; OfLatest(h, Failures(h), st.lastErrorAt, st.lastErrorTool, st.lastError)
    decreases |h|
  {
    if h == [] {
      assert Failures(h) == {};
    } else {
      var init, e := h[..|h| - 1], h[|h| - 1];
      assert h == init + [e];
      LatestErrorIsTold(init);
      CountersStep(init, e);
      var st := After(init).status;
      OfLatestStep(init, e, Failures(init), st.lastErrorAt, st.lastErrorTool, st.lastError);
    }
  }

  /** The status names the time of the latest outcome, the latest success, and the latest failure with
      the start of its error. */
  lemma {:induction false} StatusTellsLatest(h: seq<Event>)
    ensures var st := After(h).status;
            && st.updatedAt == (if h == [] then None else Some(h[|h| - 1].at))
            && OfLatest(h, Successes(h), st.lastOkAt, st.lastOkTool, "")
            && OfLatest(h, Failures(h), st.lastErrorAt, st.lastErrorTool, st.lastError)
  {
    LatestOkIsTold(h);
    LatestErrorIsTold(h);
  }

  // ---------- runs with faults ----------

  /** One call with I/O errors. Without the status nothing is written. A status that cannot be read
      starts over, its counters at zero. An entry that cannot be written stays as it is, and one that
      cannot be read is written as for a first failure. */
  lemma CallTells(s: State, e: Event, f: Faults)
    ensures var t := Recorded(s, e, f);
            var own := if e.c in t.pending then Some(t.pending[e.c]) else None;
            var was := if e.c in s.pending then Some(s.pending[e.c]) else None;
            && (forall c | c != e.c ::
                  (c in t.pending <==> c in s.pending) && (c in t.pending ==> t.pending[c] == s.pending[c]))
            && (f.statusUnwritten ==> t.status == s.status)
            && (!f.statusUnwritten ==> CountsOne(if f.statusUnread then NO_STATUS else s.status, t.status, e))
            && (f.statusUnwritten || f.entryUnwritten ==> own == was)
            && (!f.statusUnwritten && !f.entryUnwritten && e.Success? ==> own == None)
            && (!f.statusUnwritten && !f.entryUnwritten && e.Failure? ==>
                  own.Some? && CountsAttempt(if f.entryUnread then None else was, own.value, e.at, e.error))
  {
  }

  ghost predicate CountsOne(was: Status, now: Status, e: Event) {
    && now.updatedAt == Some(e.at)
    && if e.Success? then
      && now.consecutiveFailures == 0 && now.okTotal == was.okTotal + 1 && now.failedTotal == was.failedTotal
      && now.lastOkAt == Some(e.at) && IsToolOf(now.lastOkTool, e.c)
      && now.lastErrorAt == was.lastErrorAt && now.lastErrorTool == was.lastErrorTool && now.lastError == was.lastError
    else
      && now.consecutiveFailures == was.consecutiveFailures + 1
      && now.okTotal == was.okTotal && now.failedTotal == was.failedTotal + 1
      && now.lastErrorAt == Some(e.at) && IsToolOf(now.lastErrorTool, e.c) && IsStart(now.lastError, e.error)
      && now.lastOkAt == was.lastOkAt && now.lastOkTool == was.lastOkTool
  }

  ghost predicate CountsAttempt(was: Option<Entry>, now: Entry, at: int, error: string) {
    && now.lastFailedAt == at && IsStart(now.lastError, error)
    && match was
       case None => now.firstFailedAt == at && now.attempts == 1
       case Some(p) => now.firstFailedAt == p.firstFailedAt && now.attempts == p.attempts + 1
  }

  /** The files after a run in which any call may meet I/O errors. */
  function AfterFaulty(s: State, run: seq<(Event, Faults)>): State {
    if run == [] then s
    else Recorded(AfterFaulty(s, run[..|run| - 1]), run[|run| - 1].0, run[|run| - 1].1)
  }

  /** Whatever I/O fails, an entry disappears only through a success of its own commission, and one
      appears only through a failure of its own commission. */
  lemma {:induction false} EntriesOnlyLeaveBySuccess(s: State, run: seq<(Event, Faults)>, c: Commission)
    ensures c in s.pending && c !in AfterFaulty(s, run).pending
            ==> exists i :: 0 <= i < |run| && run[i].0.Success? && run[i].0.c == c
    ensures c !in s.pending && c in AfterFaulty(s, run).pending
            ==> exists i :: 0 <= i < |run| && run[i].0.Failure? && run[i].0.c == c
    decreases |run|
  {
    if run != [] {
      var init := run[..|run| - 1];
      EntriesOnlyLeaveBySuccess(s, init, c);
      if i :| 0 <= i < |init| && init[i].0.Success? && init[i].0.c == c { assert run[i] == init[i]; }
      if i :| 0 <= i < |init| && init[i].0.Failure? && init[i].0.c == c { assert run[i] == init[i]; }
    }
  }
}
