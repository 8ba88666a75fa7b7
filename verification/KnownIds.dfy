/** pkg/entity/known_ids.go: entity ids that expire when they are not accessed, over supplied clock readings. */
module KnownIds {
  import opened Options
  import opened Ranging

  /** 24 hours, in nanoseconds. */
  const DEFAULT_TTL: int := 86_400_000_000_000

  datatype Entry = Entry(id: int, lastAccess: int, ttl: int) {
    predicate IsOutdated(now: int) { lastAccess + ttl < now }
  }

  datatype State = State(ids: map<string, Entry>, ttls: map<string, int>)

  const EMPTY: State := State(map[], map[])

  datatype Op =
    | Put(key: string, id: int)
    | PutType(entityType: string, key: string, id: int)
    | Get(key: string)
    | SetTTL(entityType: string, ttl: int)
    | CleanOld

  function TtlOf(s: State, entityType: string): int {
    if entityType in s.ttls then s.ttls[entityType] else DEFAULT_TTL
  }

  /** What Get answers. */
  function Lookup(s: State, key: string, now: int): Option<int> {
    if key in s.ids && !s.ids[key].IsOutdated(now) then Some(s.ids[key].id) else None
  }

  function Cleaned(ids: map<string, Entry>, now: int): map<string, Entry> {
    map key | key in ids && !ids[key].IsOutdated(now) :: ids[key]
  }

  function Next(s: State, op: Op, now: int): State {
    match op
    case Put(key, id) => s.(ids := s.ids[key := Entry(id, now, DEFAULT_TTL)])
    case PutType(entityType, key, id) => s.(ids := s.ids[key := Entry(id, now, TtlOf(s, entityType))])
    case Get(key) =>
      if Lookup(s, key, now).Some? then s.(ids := s.ids[key := s.ids[key].(lastAccess := now)]) else s
    case SetTTL(entityType, ttl) => s.(ttls := s.ttls[entityType := ttl])
    case CleanOld => s.(ids := Cleaned(s.ids, now))
  }

  /** The object: each method takes the step of the same name. */
  class KnownIDs {
    var ids: map<string, Entry>
    var ttls: map<string, int>

    function Value(): State
      reads this
    {
      State(ids, ttls)
    }

    constructor ()
      ensures Value() == EMPTY
    {
      ids, ttls := map[], map[];
    }

    method PutTTL(key: string, id: int, ttl: int, now: int)
      modifies `ids
      ensures ids == old(ids)[key := Entry(id, now, ttl)]
    {
      ids := ids[key := Entry(id, now, ttl)];
    }

    method Put(key: string, id: int, now: int)
      modifies this
      ensures Value() == Next(old(Value()), Op.Put(key, id), now)
    {
      PutTTL(key, id, DEFAULT_TTL, now);
    }

    method PutType(entityType: string, key: string, id: int, now: int)
      modifies this
      ensures Value() == Next(old(Value()), Op.PutType(entityType, key, id), now)
    {
      if entityType in ttls {
        PutTTL(key, id, ttls[entityType], now);
      } else {
        PutTTL(key, id, DEFAULT_TTL, now);
      }
    }

    method Get(key: string, now: int) returns (r: Option<int>)
      modifies this
      ensures r == Lookup(old(Value()), key, now) && Value() == Next(old(Value()), Op.Get(key), now)
    {
      if key !in ids {
        return None;
      }
      var entry := ids[key];
      if entry.IsOutdated(now) {
        return None;
      }
      ids := ids[key := entry.(lastAccess := now)];
      return Some(entry.id);
    }

    method SetTTL(entityType: string, ttl: int, now: int)
      modifies this
      ensures Value() == Next(old(Value()), Op.SetTTL(entityType, ttl), now)
    {
      ttls := ttls[entityType := ttl];
    }

    /** Deletes the outdated entries, in any order. */
    method CleanOld(now: int)
      modifies this
      ensures Value() == Next(old(Value()), Op.CleanOld, now)
    {
      ghost var before := ids;
      var todo := ids.Keys;
      while todo != {}
        invariant todo <= before.Keys && ttls == old(ttls)
        invariant ids == map key | key in before && (key in todo || !before[key].IsOutdated(now)) :: before[key]
      {
        var key := Pick(todo);
        todo := todo - {key};
        if ids[key].IsOutdated(now) {
          ids := ids - {key};
        }
      }
    }
  }

  // ----- runs over a monotone clock -----

  datatype Event = Event(op: Op, time: int)

  function After(es: seq<Event>): State {
    if es == [] then EMPTY else Next(After(es[..|es| - 1]), es[|es| - 1].op, es[|es| - 1].time)
  }

  ghost predicate Monotone(es: seq<Event>, now: int) {
    && (forall i :: 0 <= i < |es| ==> es[i].time <= now)
    && (forall i, j :: 0 <= i < j < |es| ==> es[i].time <= es[j].time)
  }

  /** The run without its clean-ups. */
  function Uncleaned(es: seq<Event>): seq<Event> {
    if es == [] then []
    else
      Uncleaned(es[..|es| - 1]) + (if es[|es| - 1].op.CleanOld? then [] else [es[|es| - 1]])
  }

  /** `s` is `t` but for entries that are outdated at `now`. */
  ghost predicate Thinner(s: State, t: State, now: int) {
    && s.ttls == t.ttls
    && (forall key <- s.ids :: key in t.ids && t.ids[key] == s.ids[key])
    && (forall key <- t.ids :: key in s.ids || t.ids[key].IsOutdated(now))
  }

  lemma ThinnerStep(s: State, t: State, then': int, op: Op, now: int)
    requires Thinner(s, t, then') && then' <= now
    ensures op.CleanOld? ==> Thinner(Next(s, op, now), t, now)
    ensures !op.CleanOld? ==> Thinner(Next(s, op, now), Next(t, op, now), now)
    ensures forall key :: Lookup(s, key, now) == Lookup(t, key, now)
  {}

  lemma AfterSnoc(es: seq<Event>, e: Event)
    ensures After(es + [e]) == Next(After(es), e.op, e.time)
  {
    assert (es + [e])[..|es|] == es;
  }

  lemma {:induction false} CleaningThins(es: seq<Event>, now: int)
    requires Monotone(es, now)
    ensures Thinner(After(es), After(Uncleaned(es)), now)
  {
    hide Next;
    if es == [] {
    } else {
      var n := |es| - 1;
      CleaningThins(es[..n], es[n].time);
      var us := Uncleaned(es[..n]);
      ThinnerStep(After(es[..n]), After(us), es[n].time, es[n].op, es[n].time);
      if es[n].op.CleanOld? {
        assert Uncleaned(es) == us;
      } else {
        AfterSnoc(us, es[n]);
      }
    }
  }

  /** Clean-ups are invisible: with a monotone clock, removing every CleanOld from a run changes no answer of Get. So
      any two runs that differ only in CleanOld calls answer alike. */
  lemma CleaningIsInvisible(es: seq<Event>, key: string, now: int)
    requires Monotone(es, now)
    ensures Lookup(After(es), key, now) == Lookup(After(Uncleaned(es)), key, now)
  {
    CleaningThins(es, now);
    ThinnerStep(After(es), After(Uncleaned(es)), now, CleanOld, now);
  }

  // ----- what the answer is, from the history alone -----

  /** The TTL registered for a type, by the last SetTTL. */
  function Registered(es: seq<Event>, entityType: string): int {
    if es == [] then DEFAULT_TTL
    else
      var op := es[|es| - 1].op;
      if op.SetTTL? && op.entityType == entityType then op.ttl else Registered(es[..|es| - 1], entityType)
  }

  /** The last Put of a key with the times of it and of every Get of the key since. */
  datatype Life = Life(id: int, ttl: int, times: seq<int>)

  function LifeOf(es: seq<Event>, key: string): Option<Life> {
    if es == [] then None
    else
      var before, e := es[..|es| - 1], es[|es| - 1];
      match e.op
      case Put(k, id) => if k == key then Some(Life(id, DEFAULT_TTL, [e.time])) else LifeOf(before, key)
      case PutType(t, k, id) =>
        if k == key then Some(Life(id, Registered(before, t), [e.time])) else LifeOf(before, key)
      case Get(k) =>
        (match LifeOf(before, key)
         case None => None
         case Some(life) => Some(if k == key then life.(times := life.times + [e.time]) else life))
      case _ => LifeOf(before, key)
  }

  /** Every gap between successive times is within the TTL. */
  ghost predicate GapsWithin(times: seq<int>, ttl: int) {
    forall i :: 1 <= i < |times| ==> times[i] - times[i - 1] <= ttl
  }

  lemma {:induction false} TtlsRegistered(es: seq<Event>, entityType: string)
    ensures TtlOf(After(es), entityType) == Registered(es, entityType)
  {
    if es == [] {
    } else {
      TtlsRegistered(es[..|es| - 1], entityType);
    }
  }

  /** The entry a life leaves behind: last accessed at its last time if all gaps were short, and otherwise outdated at
      that time already. */
  ghost predicate Leaves(life: Option<Life>, ids: map<string, Entry>, key: string) {
    match life
    case None => key !in ids
    case Some(l) =>
      && l.times != [] && key in ids && ids[key].id == l.id && ids[key].ttl == l.ttl
      && var last := l.times[|l.times| - 1];
         if GapsWithin(l.times, l.ttl) then ids[key].lastAccess == last else ids[key].IsOutdated(last)
  }

  lemma GapsOne(t: int, ttl: int)
    ensures GapsWithin([t], ttl)
  {}

  lemma GapsSnoc(life: Life, t: int)
    requires life.times != []
    ensures GapsWithin(life.times + [t], life.ttl) <==>
            GapsWithin(life.times, life.ttl) && t - life.times[|life.times| - 1] <= life.ttl
  {
    var ts := life.times + [t];
    if GapsWithin(ts, life.ttl) {
      assert ts[|ts| - 1] - ts[|ts| - 2] <= life.ttl;
      forall i | 1 <= i < |life.times| ensures life.times[i] - life.times[i - 1] <= life.ttl {
        assert ts[i] - ts[i - 1] <= life.ttl;
      }
    }
  }

  lemma {:induction false} LifeLeaves(es: seq<Event>, key: string, now: int)
    requires Monotone(es, now) && forall i :: 0 <= i < |es| ==> !es[i].op.CleanOld?
    ensures Leaves(LifeOf(es, key), After(es).ids, key)
    ensures LifeOf(es, key).Some? ==> var ts := LifeOf(es, key).value.times; ts != [] && ts[|ts| - 1] <= now
  {
    hide GapsWithin, Registered, TtlOf;
    if es == [] {
    } else {
      var n := |es| - 1;
      LifeLeaves(es[..n], key, es[n].time);
      match es[n].op {
        case Put(_, _) => GapsOne(es[n].time, DEFAULT_TTL);
        case PutType(t, _, _) =>
          TtlsRegistered(es[..n], t);
          GapsOne(es[n].time, Registered(es[..n], t));
        case Get(k) =>
          if k == key && LifeOf(es[..n], key).Some? {
            GapsSnoc(LifeOf(es[..n], key).value, es[n].time);
          }
        case _ =>
      }
    }
  }

  lemma {:induction false} UncleanedMonotone(es: seq<Event>, now: int)
    requires Monotone(es, now)
    ensures Monotone(Uncleaned(es), now) && forall e <- Uncleaned(es) :: !e.op.CleanOld?
  {
    if es == [] {
    } else {
      var n := |es| - 1;
      UncleanedMonotone(es[..n], es[n].time);
    }
  }

  lemma {:induction false} UncleanedRegistered(es: seq<Event>, entityType: string)
    ensures Registered(Uncleaned(es), entityType) == Registered(es, entityType)
  {
    if es == [] {
    } else {
      var n := |es| - 1;
      var us := Uncleaned(es[..n]);
      UncleanedRegistered(es[..n], entityType);
      if es[n].op.CleanOld? {
        assert Uncleaned(es) == us;
      } else {
        assert (us + [es[n]])[..|us|] == us;
      }
    }
  }

  /** Clean-ups play no part in the history of a key. */
  lemma {:induction false} UncleanedLife(es: seq<Event>, key: string)
    ensures LifeOf(Uncleaned(es), key) == LifeOf(es, key)
  {
    hide Registered;
    if es == [] {
    } else {
      var n := |es| - 1;
      var us := Uncleaned(es[..n]);
      UncleanedLife(es[..n], key);
      if es[n].op.CleanOld? {
        assert Uncleaned(es) == us;
      } else {
        assert (us + [es[n]])[..|us|] == us;
        if es[n].op.PutType? {
          UncleanedRegistered(es[..n], es[n].op.entityType);
        }
      }
    }
  }

  /** Get succeeds if and only if the key was put and, since the last time, no gap between successive accesses (up to
      this one) exceeded the TTL it was put with. */
  lemma GetSucceedsIff(es: seq<Event>, key: string, now: int)
    requires Monotone(es, now)
    ensures Lookup(After(es), key, now) ==
            match LifeOf(es, key)
            case None => None
            case Some(life) => if GapsWithin(life.times + [now], life.ttl) then Some(life.id) else None
  {
    hide GapsWithin;
    CleaningIsInvisible(es, key, now);
    UncleanedMonotone(es, now);
    UncleanedLife(es, key);
    LifeLeaves(Uncleaned(es), key, now);
    if LifeOf(es, key).Some? {
      GapsSnoc(LifeOf(es, key).value, now);
    }
  }

  /** An id that was put without a type is known for 24 hours exactly, if nobody asks in between. */
  lemma KnownForADay(key: string, id: int, start: int, now: int)
    requires start <= now
    ensures Lookup(After([Event(Put(key, id), start)]), key, now) ==
            if now - start <= 86_400_000_000_000 then Some(id) else None
  {
    assert [Event(Put(key, id), start)][..0] == [];
  }

  /** With a TTL that was set for its type before, it is known for that long exactly. */
  lemma KnownForItsTtl(entityType: string, ttl: int, key: string, id: int, start: int, now: int)
    requires start <= now
    ensures var es := [Event(SetTTL(entityType, ttl), start), Event(PutType(entityType, key, id), start)];
            Lookup(After(es), key, now) == if now - start <= ttl then Some(id) else None
  {
    var es := [Event(SetTTL(entityType, ttl), start), Event(PutType(entityType, key, id), start)];
    assert es[..1] == [es[0]] && [es[0]][..0] == [];
  }
}
