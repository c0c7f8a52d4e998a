/** PendingFileCache: placeholders with a time to live, and a background sweep nobody can notice. */
module PendingCaches {
  import opened Wrappers
  import opened PathMaps

  /** When each placeholder expires. An entry is still alive at the very instant it expires. */
  type Entries = map<Path, int>

  datatype Op = Add(p: Path, ttl: int) | Exists(p: Path) | Remove(p: Path) | Move(p: Path, q: Path) | Cleanup

  datatype Event = Event(at: int, op: Op)

  predicate Alive(c: Entries, p: Path, now: int) {
    p in c && now <= c[p]
  }

  /** The placeholders a user can see at time now. */
  function Unexpired(c: Entries, now: int): Entries {
    map p | p in c && now <= c[p] :: c[p]
  }

  function Moved(c: Entries, p: Path, q: Path, now: int): Entries {
    if !Alive(c, p, now) then c - {p} else c[q := c[p]] - {p}
  }

  function Step(c: Entries, e: Event): Entries {
    match e.op
    case Add(p, ttl) => c[p := e.at + ttl]
    case Exists(_) => c
    case Remove(p) => c - {p}
    case Move(p, q) => Moved(c, p, q, e.at)
    case Cleanup => Unexpired(c, e.at)
  }

  /** What the caller is told. */
  function Answer(c: Entries, e: Event): bool {
    match e.op
    case Exists(p) => Alive(c, p, e.at)
    case Move(p, _) => Alive(c, p, e.at)
    case _ => true
  }

  function Answers(c: Entries, trace: seq<Event>): seq<bool>
    decreases |trace|
  {
    if trace == [] then []
    else (if trace[0].op.Cleanup? then [] else [Answer(c, trace[0])]) + Answers(Step(c, trace[0]), trace[1..])
  }

  function WithoutCleanups(trace: seq<Event>): seq<Event> {
    if trace == [] then []
    else (if trace[0].op.Cleanup? then [] else [trace[0]]) + WithoutCleanups(trace[1..])
  }

  /** A clock that never runs backwards, starting at now. */
  predicate Clocked(trace: seq<Event>, now: int) {
    trace == [] || (now <= trace[0].at && Clocked(trace[1..], trace[0].at))
  }

  lemma StaysSame(c1: Entries, c2: Entries, now: int, later: int)
    requires Unexpired(c1, now) == Unexpired(c2, now) && now <= later
    ensures Unexpired(c1, later) == Unexpired(c2, later)
  {
    forall p
      ensures Look(Unexpired(c1, later), p) == Look(Unexpired(c2, later), p)
    {
      assert Look(Unexpired(c1, now), p) == Look(Unexpired(c2, now), p);
    }
    SameLooks(Unexpired(c1, later), Unexpired(c2, later));
  }

  lemma SweepHidesNothing(c: Entries, at: int, now: int)
    requires at <= now
    ensures Unexpired(Unexpired(c, at), now) == Unexpired(c, now)
  {
  }

  /** Caches that look alike answer alike and go on looking alike. */
  lemma StepSame(c1: Entries, c2: Entries, e: Event)
    requires Unexpired(c1, e.at) == Unexpired(c2, e.at) && !e.op.Cleanup?
    ensures Answer(c1, e) == Answer(c2, e)
    ensures Unexpired(Step(c1, e), e.at) == Unexpired(Step(c2, e), e.at)
  {
    var d1, d2 := Step(c1, e), Step(c2, e);
    forall p
      ensures Alive(c1, p, e.at) == Alive(c2, p, e.at) && (Alive(c1, p, e.at) ==> c1[p] == c2[p])
    {
      assert Look(Unexpired(c1, e.at), p) == Look(Unexpired(c2, e.at), p);
    }
    forall p
      ensures Look(Unexpired(d1, e.at), p) == Look(Unexpired(d2, e.at), p)
    {
      assert Alive(c1, p, e.at) == Alive(c2, p, e.at);
    }
    SameLooks(Unexpired(d1, e.at), Unexpired(d2, e.at));
  }

  /** The cache refines the map of its unexpired entries: same answers, same visible entries afterwards. */
  lemma RefinesUnexpired(c: Entries, e: Event)
    ensures Answer(c, e) == Answer(Unexpired(c, e.at), e)
    ensures Unexpired(Step(c, e), e.at) == Unexpired(Step(Unexpired(c, e.at), e), e.at)
  {
    SweepHidesNothing(c, e.at, e.at);
    if !e.op.Cleanup? {
      StepSame(c, Unexpired(c, e.at), e);
    }
  }

  lemma {:induction false} SameAnswers(c1: Entries, t1: seq<Event>, now1: int, c2: Entries, t2: seq<Event>, now2: int)
    requires Clocked(t1, now1) && Clocked(t2, now2) && WithoutCleanups(t1) == WithoutCleanups(t2)
    requires Unexpired(c1, Max(now1, now2)) == Unexpired(c2, Max(now1, now2))
    ensures Answers(c1, t1) == Answers(c2, t2)
    decreases |t1| + |t2|
  {
    var now := Max(now1, now2);
    if t1 != [] && t1[0].op.Cleanup? {
      var at := t1[0].at;
      StaysSame(c1, c2, now, Max(at, now2));
      SweepHidesNothing(c1, at, Max(at, now2));
      SameAnswers(Step(c1, t1[0]), t1[1..], at, c2, t2, now2);
    } else if t2 != [] && t2[0].op.Cleanup? {
      var at := t2[0].at;
      StaysSame(c1, c2, now, Max(at, now1));
      SweepHidesNothing(c2, at, Max(at, now1));
      SameAnswers(c1, t1, now1, Step(c2, t2[0]), t2[1..], at);
    } else if t1 != [] {
      var e := t1[0];
      assert WithoutCleanups(t1) == [e] + WithoutCleanups(t1[1..]);
      assert t2 != [] && WithoutCleanups(t2) == [t2[0]] + WithoutCleanups(t2[1..]);
      assert WithoutCleanups(t1)[0] == e == t2[0];
      assert WithoutCleanups(t1)[1..] == WithoutCleanups(t1[1..]) == WithoutCleanups(t2[1..]);
      StaysSame(c1, c2, now, e.at);
      StepSame(c1, c2, e);
      SameAnswers(Step(c1, e), t1[1..], e.at, Step(c2, e), t2[1..], e.at);
    }
  }

  /** Inserting or deleting sweeps anywhere in a trace changes no answer. */
  lemma CleanupUnobservable(c: Entries, t1: seq<Event>, t2: seq<Event>, now: int)
    requires Clocked(t1, now) && Clocked(t2, now) && WithoutCleanups(t1) == WithoutCleanups(t2)
    ensures Answers(c, t1) == Answers(c, t2)
  {
    SameAnswers(c, t1, now, c, t2, now);
  }

  function Played(c: Entries, trace: seq<Event>): Entries
    decreases |trace|
  {
    if trace == [] then c else Played(Step(c, trace[0]), trace[1..])
  }

  /** The operation neither sets nor drops what stands at p, unless it has expired. */
  predicate LeavesAlone(op: Op, p: Path) {
    match op
    case Exists(_) => true
    case Cleanup => true
    case Add(q, _) => q != p
    case Remove(q) => q != p
    case Move(q, r) => q != p && r != p
  }

  /** A placeholder is seen up to the last instant of its time to live and never after it, whatever happens to others
      and whenever the sweep runs. */
  lemma SeenUntil(c: Entries, p: Path, at: int, ttl: int, trace: seq<Event>, now: int)
    requires Clocked(trace, at) && (forall e :: e in trace ==> LeavesAlone(e.op, p) && e.at <= now) && at <= now
    ensures Answer(Played(Step(c, Event(at, Add(p, ttl))), trace), Event(now, Exists(p))) <==> now <= at + ttl
  {
    PlayedAlone(Step(c, Event(at, Add(p, ttl))), p, trace, now);
  }

  /** A moved placeholder is seen at its new path until the time it was to expire at the old one, where it is gone. */
  lemma MovedUntil(c: Entries, p: Path, q: Path, at: int, trace: seq<Event>, now: int)
    requires p != q && p in c && at <= c[p] && Clocked(trace, at) && at <= now
    requires forall e :: e in trace ==> LeavesAlone(e.op, p) && LeavesAlone(e.op, q) && e.at <= now
    ensures var after := Played(Step(c, Event(at, Move(p, q))), trace);
            && (Answer(after, Event(now, Exists(q))) <==> now <= c[p])
            && !Answer(after, Event(now, Exists(p)))
  {
    PlayedAlone(Step(c, Event(at, Move(p, q))), p, trace, now);
    PlayedAlone(Step(c, Event(at, Move(p, q))), q, trace, now);
  }

  lemma {:induction false} PlayedAlone(c: Entries, p: Path, trace: seq<Event>, now: int)
    requires forall e :: e in trace ==> LeavesAlone(e.op, p) && e.at <= now
    ensures Alive(Played(c, trace), p, now) <==> Alive(c, p, now)
    decreases |trace|
  {
    if trace != [] {
      PlayedAlone(Step(c, trace[0]), p, trace[1..], now);
    }
  }

  class PendingFileCache {
    var data: Entries

    constructor ()
      ensures data == map[]
    {
      data := map[];
    }

    method Add(p: Path, ttl: int, now: int)
      modifies this
      ensures data == Step(old(data), Event(now, Op.Add(p, ttl)))
      ensures data == old(data)[p := now + ttl]
    {
      data := data[p := now + ttl];
    }

    method Exists(p: Path, now: int) returns (found: bool)
      ensures found == Answer(data, Event(now, Op.Exists(p)))
      ensures found <==> p in data && now <= data[p]
    {
      if p !in data {
        return false;
      }
      if now > data[p] {
        return false;
      }
      return true;
    }

    method Remove(p: Path)
      modifies this
      ensures data == old(data) - {p}
    {
      data := data - {p};
    }

    method Move(p: Path, q: Path, now: int) returns (moved: bool)
      modifies this
      ensures moved == Answer(old(data), Event(now, Op.Move(p, q)))
      ensures data == Step(old(data), Event(now, Op.Move(p, q)))
      // A live entry keeps its expiry at the new path; an expired one goes.
      ensures moved <==> p in old(data) && now <= old(data)[p]
      ensures data == if moved && p != q then old(data)[q := old(data)[p]] - {p} else old(data) - {p}
    {
      if p !in data {
        return false;
      }
      if now > data[p] {
        data := data - {p};
        return false;
      }
      data := data[q := data[p]];
      data := data - {p};
      return true;
    }

    method Cleanup(now: int)
      modifies this
      ensures data == Step(old(data), Event(now, Op.Cleanup))
      ensures forall p :: p in data <==> p in old(data) && now <= old(data)[p]
      ensures forall p :: p in data ==> data[p] == old(data)[p]
    {
      var todo := data.Keys;
      while todo != {}
        invariant todo <= old(data).Keys
        invariant data == map p | p in old(data) && (p in todo || now <= old(data)[p]) :: old(data)[p]
        decreases todo
      {
        var p :| p in todo;
        todo := todo - {p};
        if now > data[p] {
          data := data - {p};
        }
      }
    }
  }
}
