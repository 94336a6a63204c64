/** The two-level cache in front of the vulnerability feeds (tools/_shared/feeds.py:110-163): copies in
    memory and on disk, each with the time it is from. A digest stands for its key. */
module FeedCache {
  import opened Wrappers

  type Body = string

  datatype Copy = Copy(at: int, body: Body)

  datatype State = State(memory: map<string, Copy>, disk: map<string, Copy>)

  /** One call: its time, what the feed would answer (None when it fails) and when that answer is
      stored, whether a state directory is set and whether it can be written. Or memory is cleared. */
  datatype Event =
    | Fetch(key: string, ttl: int, now: int, answer: Option<Body>, done: int, dir: bool, writable: bool)
    | ClearMemory

  predicate Fresh(copies: map<string, Copy>, e: Event)
    requires e.Fetch?
  {
    e.key in copies && e.now - copies[e.key].at < e.ttl
  }

  /** No copy younger than the TTL is at hand, so the feed is asked. */
  predicate Asks(s: State, e: Event)
    requires e.Fetch?
  {
    !Fresh(s.memory, e) && !(e.dir && Fresh(s.disk, e))
  }

  function Next(s: State, e: Event): State {
    match e
    case ClearMemory => State(map[], s.disk)
    case Fetch(key, _, now, answer, done, dir, writable) =>
      if Fresh(s.memory, e) then s
      else if dir && Fresh(s.disk, e) then State(s.memory[key := s.disk[key]], s.disk)
      else if answer.None? then s
      else State(s.memory[key := Copy(now, answer.value)],
                 if dir && writable then s.disk[key := Copy(done, answer.value)] else s.disk)
  }

  /** What the call returns; None when it raises. */
  function Answer(s: State, e: Event): Option<Body>
    requires e.Fetch?
  {
    if Fresh(s.memory, e) then Some(s.memory[e.key].body)
    else if e.dir && Fresh(s.disk, e) then Some(s.disk[e.key].body)
    else if e.answer.Some? then e.answer
    else if e.dir && e.key in s.disk then Some(s.disk[e.key].body)
    else if e.key in s.memory then Some(s.memory[e.key].body)
    else None
  }

  class Feeds {
    var memory: map<string, Copy>
    var disk: map<string, Copy>

    constructor ()
      ensures memory == map[] && disk == map[]
    {
      memory, disk := map[], map[];
    }

    ghost function Cached(): State
      reads this
    {
      State(memory, disk)
    }

    /** A copy younger than the TTL is returned unasked; a stale one only after the feed failed; the call
        raises exactly when the feed failed and there is neither a file nor a copy in memory. */
    method CachedFetch(key: string, ttl: int, now: int, answer: Option<Body>, done: int, dir: bool, writable: bool)
      returns (r: Option<Body>, asked: bool)
      modifies this
      ensures var e := Fetch(key, ttl, now, answer, done, dir, writable);
              Cached() == Next(old(Cached()), e) && r == Answer(old(Cached()), e) && asked == Asks(old(Cached()), e)
      ensures asked ==> (forall c | c in Copies(old(Cached()), key, dir) :: now - c.at >= ttl)
      ensures asked && answer.Some? ==> r == answer
      ensures !asked ==> exists c :: c in Copies(old(Cached()), key, dir) && now - c.at < ttl && r == Some(c.body)
      ensures asked && answer.None? && r.Some? ==> exists c :: c in Copies(old(Cached()), key, dir) && r == Some(c.body)
      ensures r.None? <==> asked && answer.None? && Copies(old(Cached()), key, dir) == {}
    {
      asked := false;
      if key in memory && now - memory[key].at < ttl {
        assert memory[key] in Copies(Cached(), key, dir);
        return Some(memory[key].body), false;
      }
      if dir && key in disk {
        assert disk[key] in Copies(Cached(), key, dir);
        var age := now - disk[key].at;
        if age < ttl {
          memory := memory[key := Copy(now - age, disk[key].body)];
          return Some(disk[key].body), false;
        }
      }
      asked := true;
      if answer.None? {
        if dir && key in disk { return Some(disk[key].body), true; }
        if key in memory {
          assert memory[key] in Copies(Cached(), key, dir);
          return Some(memory[key].body), true;
        }
        return None, true;
      }
      memory := memory[key := Copy(now, answer.value)];
      if dir && writable { disk := disk[key := Copy(done, answer.value)]; }
      r := answer;
    }

    method ClearMemoryCache()
      modifies this
      ensures Cached() == Next(old(Cached()), ClearMemory)
    {
      memory := map[];
    }
  }

  /** The copies a call can see. */
  ghost function Copies(s: State, key: string, dir: bool): set<Copy> {
    (if key in s.memory then {s.memory[key]} else {}) + (if dir && key in s.disk then {s.disk[key]} else {})
  }

  // ---------- whole runs ----------

  function After(es: seq<Event>): State {
    if es == [] then State(map[], map[]) else Next(After(es[..|es| - 1]), es[|es| - 1])
  }

  /** Time does not run backwards, within a call or between calls. */
  ghost predicate Timed(es: seq<Event>) {
    && (forall i | 0 <= i < |es| && es[i].Fetch? :: es[i].now <= es[i].done)
    && (forall i, j | 0 <= i < j < |es| && es[i].Fetch? && es[j].Fetch? :: es[i].done <= es[j].now)
  }

  ghost predicate AsksAt(es: seq<Event>, i: int) {
    0 <= i < |es| && es[i].Fetch? && Asks(After(es[..i]), es[i])
  }

  /** The i-th event is a successful fetch of the key that produced this body. */
  ghost predicate Produces(es: seq<Event>, i: int, key: string, body: Body) {
    AsksAt(es, i) && es[i].key == key && es[i].answer == Some(body)
  }

  /** Some successful fetch of the key produced this body and was stored no earlier than the copy's time. */
  ghost predicate Sourced(es: seq<Event>, key: string, c: Copy) {
    exists i :: Produces(es, i, key, c.body) && c.at <= es[i].done
  }

  lemma ProducesStays(es: seq<Event>, e: Event, i: int, key: string, body: Body)
    requires Produces(es, i, key, body)
    ensures Produces(es + [e], i, key, body) && (es + [e])[i] == es[i]
  {
    assert (es + [e])[..i] == es[..i];
  }

  lemma SourcedStays(es: seq<Event>, e: Event, key: string, c: Copy)
    requires Sourced(es, key, c)
    ensures Sourced(es + [e], key, c)
  {
    var i :| Produces(es, i, key, c.body) && c.at <= es[i].done;
    ProducesStays(es, e, i, key, c.body);
  }

  lemma AfterStep(es: seq<Event>, e: Event)
    ensures After(es + [e]) == Next(After(es), e)
    ensures e.Fetch? ==> (AsksAt(es + [e], |es|) <==> Asks(After(es), e))
  {
    assert (es + [e])[..|es|] == es;
  }

  lemma TimedPrefix(es: seq<Event>, e: Event)
    requires Timed(es + [e])
    ensures Timed(es)
  {
    var t := es + [e];
    assert forall i | 0 <= i < |es| :: t[i] == es[i];
  }

  ghost predicate AllSourced(es: seq<Event>, s: State) {
    && (forall k | k in s.memory :: Sourced(es, k, s.memory[k]))
    && (forall k | k in s.disk :: Sourced(es, k, s.disk[k]))
  }

  /** Every copy, in memory or on disk, comes from a successful fetch of its own key. */
  lemma {:induction false} CopiesAreSourced(es: seq<Event>)
    requires Timed(es)
    ensures AllSourced(es, After(es))
  {
    if es != [] {
      var init, e := es[..|es| - 1], es[|es| - 1];
      assert es == init + [e];
      TimedPrefix(init, e);
      CopiesAreSourced(init);
      AfterStep(init, e);
      SourcedStep(init, e);
    }
  }

  lemma SourcedStep(init: seq<Event>, e: Event)
    requires AllSourced(init, After(init)) && Timed(init + [e])
    ensures AllSourced(init + [e], Next(After(init), e))
  {
    var es, s, t := init + [e], After(init), Next(After(init), e);
    AfterStep(init, e);
    assert es[|init|] == e;
    forall k | k in t.memory ensures Sourced(es, k, t.memory[k]) {
      if k in s.memory && t.memory[k] == s.memory[k] {
        SourcedStays(init, e, k, s.memory[k]);
      } else if Asks(s, e) {
        assert Produces(es, |init|, k, t.memory[k].body);
      } else {
        SourcedStays(init, e, k, s.disk[k]);
      }
    }
    forall k | k in t.disk ensures Sourced(es, k, t.disk[k]) {
      if k in s.disk && t.disk[k] == s.disk[k] {
        SourcedStays(init, e, k, s.disk[k]);
      } else {
        assert Produces(es, |init|, k, t.disk[k].body);
      }
    }
  }

  /** Every body returned was produced by a successful fetch of that key, in this call or before; and
      unless this call asked the feed and failed, by one stored less than the TTL ago. */
  lemma AnswersAreProduced(es: seq<Event>, e: Event)
    requires e.Fetch? && Timed(es + [e])
    ensures var a := Answer(After(es), e);
            a.Some? ==>
              exists i :: Produces(es + [e], i, e.key, a.value)
                          && (i == |es| || (Asks(After(es), e) && e.answer.None?) || e.now - (es + [e])[i].done < e.ttl)
  {
    var s, a := After(es), Answer(After(es), e);
    TimedPrefix(es, e);
    CopiesAreSourced(es);
    if a.Some? {
      if Asks(s, e) && e.answer.Some? {
        AfterStep(es, e);
        assert Produces(es + [e], |es|, e.key, a.value);
      } else {
        var c := AnswerIsCopy(s, e);
        CopyIsProduced(es, e, c);
      }
    }
  }

  lemma AnswerIsCopy(s: State, e: Event) returns (c: Copy)
    requires e.Fetch? && Answer(s, e).Some? && !(Asks(s, e) && e.answer.Some?)
    ensures c in Copies(s, e.key, e.dir) && Answer(s, e) == Some(c.body) && (Asks(s, e) || e.now - c.at < e.ttl)
  {
    c := if Fresh(s.memory, e) then s.memory[e.key]
         else if e.dir && e.key in s.disk then s.disk[e.key]
         else s.memory[e.key];
  }

  lemma CopyIsProduced(es: seq<Event>, e: Event, c: Copy)
    requires e.Fetch? && AllSourced(es, After(es)) && c in Copies(After(es), e.key, e.dir)
    ensures exists i :: Produces(es + [e], i, e.key, c.body) && c.at <= (es + [e])[i].done
  {
    assert Sourced(es, e.key, c);
    var i :| Produces(es, i, e.key, c.body) && c.at <= es[i].done;
    ProducesStays(es, e, i, e.key, c.body);
  }

  // ---------- nothing is fetched twice within the TTL ----------

  lemma {:induction false} MemoryKeepsUp(es: seq<Event>, i: nat, j: nat)
    requires Timed(es) && i < j <= |es| && AsksAt(es, i) && es[i].answer.Some?
    requires forall l | i < l < j :: es[l].Fetch?
    ensures es[i].key in After(es[..j]).memory && After(es[..j]).memory[es[i].key].at >= es[i].now
    decreases j
  {
    assert es[..j] == es[..j - 1] + [es[j - 1]];
    AfterStep(es[..j - 1], es[j - 1]);
    if i < j - 1 {
      MemoryKeepsUp(es, i, j - 1);
    }
  }

  lemma {:induction false} DiskKeepsUp(es: seq<Event>, i: nat, j: nat)
    requires Timed(es) && i < j <= |es| && AsksAt(es, i) && es[i].answer.Some? && es[i].dir && es[i].writable
    ensures es[i].key in After(es[..j]).disk && After(es[..j]).disk[es[i].key].at >= es[i].done
    decreases j
  {
    assert es[..j] == es[..j - 1] + [es[j - 1]];
    AfterStep(es[..j - 1], es[j - 1]);
    if i < j - 1 {
      DiskKeepsUp(es, i, j - 1);
    }
  }

  /** After a successful fetch of a key no call asks the feed for it again within its TTL: counted from
      the fetch while memory is not cleared, and from the time the file was stored, cleared or not. */
  lemma NothingIsAskedTwice(es: seq<Event>, i: nat, j: nat)
    requires Timed(es) && i < j && AsksAt(es, i) && es[i].answer.Some? && AsksAt(es, j) && es[j].key == es[i].key
    ensures (forall l | i < l < j :: es[l].Fetch?) ==> es[j].now - es[i].now >= es[j].ttl
    ensures es[i].dir && es[i].writable && es[j].dir ==> es[j].now - es[i].done >= es[j].ttl
  {
    if forall l | i < l < j :: es[l].Fetch? { MemoryKeepsUp(es, i, j); }
    if es[i].dir && es[i].writable { DiskKeepsUp(es, i, j); }
  }

  // ---------- which stale copy is used ----------

  ghost predicate IsLatest(es: seq<Event>, i: int, key: string, body: Body) {
    Produces(es, i, key, body) && forall j, b | i < j :: !Produces(es, j, key, b)
  }

  ghost predicate Stored(e: Event) { e.Fetch? && e.dir && e.writable }

  lemma NoLaterAsk(es: seq<Event>, i: nat, key: string, body: Body, j: nat)
    requires IsLatest(es, i, key, body) && i < j < |es| && es[j].Fetch? && es[j].key == key
    ensures !(Asks(After(es[..j]), es[j]) && es[j].answer.Some?)
  {
    if Asks(After(es[..j]), es[j]) && es[j].answer.Some? {
      assert Produces(es, j, key, es[j].answer.value);
    }
  }

  /** The file of the key after its latest successful fetch. */
  function FileAfter(es: seq<Event>, i: nat, key: string, body: Body): Option<Copy>
    requires i < |es| && es[i].Fetch?
  {
    if es[i].dir && es[i].writable then Some(Copy(es[i].done, body))
    else if key in After(es[..i]).disk then Some(After(es[..i]).disk[key])
    else None
  }

  lemma {:induction false} FileStays(es: seq<Event>, i: nat, key: string, body: Body, j: nat)
    requires IsLatest(es, i, key, body) && i < j <= |es|
    ensures var disk := After(es[..j]).disk;
            (if key in disk then Some(disk[key]) else None) == FileAfter(es, i, key, body)
    decreases j
  {
    assert es[..j] == es[..j - 1] + [es[j - 1]];
    AfterStep(es[..j - 1], es[j - 1]);
    if i < j - 1 {
      FileStays(es, i, key, body, j - 1);
      if es[j - 1].Fetch? && es[j - 1].key == key { NoLaterAsk(es, i, key, body, j - 1); }
    }
  }

  /** The file is no newer than the fetch, unless the fetch wrote it. */
  lemma OldFileIsOld(es: seq<Event>, i: nat, key: string, body: Body)
    requires Timed(es) && IsLatest(es, i, key, body)
    ensures var file := FileAfter(es, i, key, body);
            file.Some? ==> file.value.body == body || file.value.at <= es[i].now
  {
    var init := es[..i];
    assert Timed(init);
    CopiesAreSourced(init);
    if key in After(init).disk && !Stored(es[i]) {
      var k :| Produces(init, k, key, After(init).disk[key].body) && After(init).disk[key].at <= init[k].done;
      assert es[k] == init[k];
    }
  }

  ghost predicate Uncleared(es: seq<Event>, i: int, j: int)
    requires 0 <= i && j <= |es|
  {
    forall l | i < l < j :: es[l].Fetch?
  }

  /** A call that takes the file into memory unless memory has a copy as young. */
  predicate Reads(e: Event, key: string, file: Option<Copy>) {
    e.Fetch? && e.key == key && e.dir && file.Some? && e.now - file.value.at < e.ttl
  }

  /** A call read the file and memory was not cleared since. */
  ghost predicate ReadSince(es: seq<Event>, i: int, j: int, key: string, file: Option<Copy>)
    requires 0 <= i && j <= |es|
  {
    exists r :: i < r < j && Reads(es[r], key, file) && Uncleared(es, r, j)
  }

  /** A call read the file because the fetched body was too old for it in memory, but not in the file,
      which is stored a little later. */
  ghost predicate Refreshed(es: seq<Event>, i: int, j: int, key: string, file: Option<Copy>)
    requires 0 <= i && j <= |es| && i < |es| && es[i].Fetch?
  {
    exists r :: i < r < j && Reads(es[r], key, file) && es[r].now - es[i].now >= es[r].ttl
  }

  /** What memory holds of a key before the j-th event. */
  function Remembered(es: seq<Event>, j: nat, key: string): Option<Copy>
    requires j <= |es|
  {
    var m := After(es[..j]).memory;
    if key in m then Some(m[key]) else None
  }

  /** What it should hold: the last body fetched, as of when it was asked for or as refreshed from the
      file, until memory is cleared, then what was read from the file. */
  ghost predicate Recalls(es: seq<Event>, i: nat, key: string, body: Body, j: nat)
    requires i < j <= |es| && es[i].Fetch?
  {
    var file := FileAfter(es, i, key, body);
    Remembered(es, j, key) ==
    if Uncleared(es, i, j) then (if Refreshed(es, i, j, key, file) then file else Some(Copy(es[i].now, body)))
    else if ReadSince(es, i, j, key, file) then file
    else None
  }

  lemma UnclearedStep(es: seq<Event>, i: int, j: nat)
    requires 0 <= i && i + 1 < j <= |es|
    ensures Uncleared(es, i, j) <==> Uncleared(es, i, j - 1) && es[j - 1].Fetch?
  {
  }

  lemma ReadSinceStep(es: seq<Event>, i: int, j: nat, key: string, file: Option<Copy>)
    requires 0 <= i && i + 1 < j <= |es|
    ensures ReadSince(es, i, j, key, file) <==>
            Reads(es[j - 1], key, file) || (es[j - 1].Fetch? && ReadSince(es, i, j - 1, key, file))
  {
    if Reads(es[j - 1], key, file) { assert Uncleared(es, j - 1, j); }
    if es[j - 1].Fetch? && ReadSince(es, i, j - 1, key, file) {
      var r :| i < r < j - 1 && Reads(es[r], key, file) && Uncleared(es, r, j - 1);
      assert Uncleared(es, r, j);
    }
    if r :| i < r < j && Reads(es[r], key, file) && Uncleared(es, r, j) {
      assert r < j - 1 ==> Uncleared(es, r, j - 1);
    }
  }

  lemma {:induction false} MemoryIsKnown(es: seq<Event>, i: nat, key: string, body: Body, j: nat)
    requires Timed(es) && IsLatest(es, i, key, body) && i < j <= |es|
    ensures Recalls(es, i, key, body, j)
    decreases j
  {
    var last := es[j - 1];
    assert es[..j] == es[..j - 1] + [last];
    AfterStep(es[..j - 1], last);
    if i < j - 1 {
      MemoryIsKnown(es, i, key, body, j - 1);
      UnclearedStep(es, i, j);
      ReadSinceStep(es, i, j, key, FileAfter(es, i, key, body));
      RefreshedStep(es, i, j, key, FileAfter(es, i, key, body));
      if last.Fetch? && last.key == key { RecallStep(es, i, key, body, j); }
    }
  }

  /** A later call for the key. */
  lemma RecallStep(es: seq<Event>, i: nat, key: string, body: Body, j: nat)
    requires Timed(es) && IsLatest(es, i, key, body) && i + 1 < j <= |es|
    requires es[j - 1].Fetch? && es[j - 1].key == key && Recalls(es, i, key, body, j - 1)
    ensures var file := FileAfter(es, i, key, body);
            Remembered(es, j, key) ==
            if Uncleared(es, i, j - 1)
              then (if Refreshed(es, i, j, key, file) then file else Some(Copy(es[i].now, body)))
            else if Reads(es[j - 1], key, file) || ReadSince(es, i, j - 1, key, file) then file
            else None
  {
    assert es[..j] == es[..j - 1] + [es[j - 1]];
    AfterStep(es[..j - 1], es[j - 1]);
    NoLaterAsk(es, i, key, body, j - 1);
    FileStays(es, i, key, body, j - 1);
    RefreshedStep(es, i, j, key, FileAfter(es, i, key, body));
  }

  /** Only the file of that very fetch is younger than what the fetch left in memory. */
  lemma RefreshedSame(es: seq<Event>, i: nat, j: int, key: string, body: Body)
    requires Timed(es) && IsLatest(es, i, key, body) && j <= |es|
    requires Refreshed(es, i, j, key, FileAfter(es, i, key, body))
    ensures FileAfter(es, i, key, body).value.body == body
  {
    OldFileIsOld(es, i, key, body);
  }

  lemma RefreshedStep(es: seq<Event>, i: int, j: nat, key: string, file: Option<Copy>)
    requires 0 <= i && i + 1 < j <= |es| && es[i].Fetch?
    ensures Refreshed(es, i, j, key, file) <==>
            Refreshed(es, i, j - 1, key, file)
            || (Reads(es[j - 1], key, file) && es[j - 1].now - es[i].now >= es[j - 1].ttl)
  {
    if Reads(es[j - 1], key, file) && es[j - 1].now - es[i].now >= es[j - 1].ttl {
      assert Refreshed(es, i, j, key, file);
    }
    if Refreshed(es, i, j - 1, key, file) {
      var r :| i < r < j - 1 && Reads(es[r], key, file) && es[r].now - es[i].now >= es[r].ttl;
      assert Refreshed(es, i, j, key, file);
    }
  }

  /** What a failed fetch falls back to: with a state directory set, the file if there is one, which
      holds the last body fetched if that one was stored and an older one otherwise; without, or
      without a file, the last body fetched until memory is cleared, and after that what a later call
      read from the file. With nothing of this the call raises. */
  lemma FallbackIsKnown(es: seq<Event>, e: Event, i: nat, body: Body)
    requires e.Fetch? && Timed(es) && Asks(After(es), e) && e.answer.None? && IsLatest(es, i, e.key, body)
    ensures var file := FileAfter(es, i, e.key, body);
            Answer(After(es), e) ==
            if e.dir && file.Some? then Some(file.value.body)
            else if Uncleared(es, i, |es|) then Some(body)
            else if ReadSince(es, i, |es|, e.key, file) then Some(file.value.body)
            else None
  {
    assert es[..|es|] == es;
    FileStays(es, i, e.key, body, |es|);
    MemoryIsKnown(es, i, e.key, body, |es|);
    BodyIsKnown(es, i, e.key, body);
  }

  lemma BodyIsKnown(es: seq<Event>, i: nat, key: string, body: Body)
    requires Timed(es) && IsLatest(es, i, key, body) && Recalls(es, i, key, body, |es|)
    ensures var file, m := FileAfter(es, i, key, body), Remembered(es, |es|, key);
            if Uncleared(es, i, |es|) then m.Some? && m.value.body == body
            else m == if ReadSince(es, i, |es|, key, file) then file else None
  {
    if Refreshed(es, i, |es|, key, FileAfter(es, i, key, body)) { RefreshedSame(es, i, |es|, key, body); }
  }

  /** A key no fetch ever succeeded for has nothing to fall back to. */
  lemma NeverFetchedRaises(es: seq<Event>, e: Event)
    requires e.Fetch? && Timed(es) && e.answer.None? && forall i, body :: !Produces(es, i, e.key, body)
    ensures Asks(After(es), e) && Answer(After(es), e).None?
  {
    CopiesAreSourced(es);
    assert forall c :: !Sourced(es, e.key, c);
  }

  const STORED := Fetch("k", 5, 0, Some("old"), 0, true, true)
  const NOT_STORED := Fetch("k", 5, 10, Some("new"), 10, true, false)
  const FAILED := Fetch("k", 5, 20, None, 20, true, true)

  lemma AfterStored()
    ensures After([STORED]) == State(map["k" := Copy(0, "old")], map["k" := Copy(0, "old")])
  {
    assert [] + [STORED] == [STORED];
    AfterStep([], STORED);
  }

  lemma AfterNotStored()
    ensures After([STORED, NOT_STORED]) == State(map["k" := Copy(10, "new")], map["k" := Copy(0, "old")])
    ensures IsLatest([STORED, NOT_STORED], 1, "k", "new")
  {
    var es := [STORED, NOT_STORED];
    assert [STORED] + [NOT_STORED] == es && es[..1] == [STORED];
    AfterStored();
    AfterStep([STORED], NOT_STORED);
    assert Produces(es, 1, "k", "new");
  }

  /** A body that could not be stored loses to the older file, even while memory still holds it. */
  lemma FallbackCanBeOlder()
    ensures Timed([STORED, NOT_STORED, FAILED])
    ensures IsLatest([STORED, NOT_STORED], 1, "k", "new")
    ensures Answer(After([STORED, NOT_STORED]), FAILED) == Some("old")
  {
    AfterNotStored();
  }
}
