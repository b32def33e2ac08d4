/** What every live reader of a home's file shares: a stat at most once per debounce, and a read only when
    the stamp changed. */
module Debounce {
  import opened Wrappers

  /** nauthy's `FileStamp`, of which only its identity matters. */
  type Stamp = int

  /** What a stat answered: no file, a failure, or a file with its stamp, which a filesystem may not give. */
  datatype Stat = NotFound | StatFailed | Stamped(stamp: Option<Stamp>)

  /** Whether a stat is owed: none was made, or the last was a debounce (nauthy's `STAT_DEBOUNCE`, in whatever unit
      times are counted) ago. */
  predicate Due(lastStat: Option<nat>, now: nat, debounce: nat) {
    lastStat.Some? ==> now >= lastStat.value + debounce
  }

  /** `FileStamp::unchanged`: only two stamps can agree. */
  predicate Unchanged(a: Option<Stamp>, b: Option<Stamp>) { a.Some? && a == b }

  // --- a cache that fails to nothing ---

  /** What a reader holds, the stamp of the file it came from, and when it last asked. */
  datatype Cache<T> = Cache(held: T, stamp: Option<Stamp>, lastStat: Option<nat>)

  /** What a reader makes of each thing it may find: no file, a stat that failed, or a read's outcome, and
      which outcomes are good enough to remember the stamp by. */
  datatype Policy<!B, T> = Policy(missing: T, blocked: T, of: B -> T, good: B -> bool)

  /** One look: at `now` the stat, and at `later`, if it comes to that, the read. */
  datatype Look<B> = Look(now: nat, later: nat, stat: Stat, read: B)

  /** Whether a look comes to a read. */
  predicate Reads<B>(debounce: nat, lastStat: Option<nat>, stamp: Option<Stamp>, look: Look<B>) {
    Due(lastStat, look.now, debounce) && look.stat.Stamped? && !Unchanged(stamp, look.stat.stamp)
  }

  /** A look, when it comes to a read. */
  function ReadBy<B>(debounce: nat, lastStat: Option<nat>, stamp: Option<Stamp>, look: Look<B>): seq<Look<B>> {
    if Reads(debounce, lastStat, stamp, look) then [look] else []
  }

  function CacheNext<B, T>(p: Policy<B, T>, debounce: nat, c: Cache<T>, look: Look<B>): Cache<T> {
    if !Due(c.lastStat, look.now, debounce) then c
    else match look.stat
      case NotFound => Cache(p.missing, None, Some(look.now))
      case StatFailed => Cache(p.blocked, None, Some(look.now))
      case Stamped(s) =>
        if Unchanged(c.stamp, s) then c.(lastStat := Some(look.now))
        else Cache(p.of(look.read), if p.good(look.read) then s else None, Some(look.now))
  }

  /** A look stats at most once a debounce, and reads only a file whose stamp is not the one held; two absent stamps are
      not one. */
  lemma LookIsSparing<B, T>(p: Policy<B, T>, debounce: nat, c: Cache<T>, look: Look<B>)
    ensures var d := CacheNext(p, debounce, c, look);
            && (d.lastStat != c.lastStat ==>
                  d.lastStat == Some(look.now) && (c.lastStat.Some? ==> look.now >= c.lastStat.value + debounce))
            && (c.lastStat.None? || look.now >= c.lastStat.value + debounce ==> d.lastStat == Some(look.now))
            && (Reads(debounce, c.lastStat, c.stamp, look) <==>
                  && (c.lastStat.None? || look.now >= c.lastStat.value + debounce)
                  && look.stat.Stamped? && (look.stat.stamp.None? || look.stat.stamp != c.stamp))
            && (Reads(debounce, c.lastStat, c.stamp, look) ==>
                  d.held == p.of(look.read) && d.stamp == if p.good(look.read) then look.stat.stamp else None)
  {}

  /** The file at one moment: none, one that cannot be statted, or a version, with what reading it gives. */
  datatype FileAt<B> = Missing | Blocked | There(stamp: Option<Stamp>, body: B)

  /** The file at every moment. */
  type History<B> = nat -> FileAt<B>

  /** A stamp stands for one version and does not come back once it has gone. */
  ghost predicate Stamps<B(!new)>(h: History<B>) {
    forall a: nat, b: nat, c: nat :: a <= b <= c && h(a).There? && h(c).There? && Unchanged(h(a).stamp, h(c).stamp)
                                     ==> h(b) == h(a)
  }

  /** What a read of the file at one moment would make of it, with nothing remembered. */
  function Direct<B, T>(p: Policy<B, T>, f: FileAt<B>): T {
    match f case Missing => p.missing case Blocked => p.blocked case There(_, body) => p.of(body)
  }

  /** A look answers for the file as it stands: the stat for the moment it is made, the read for its own, or
      the read fails on its own account. */
  ghost predicate Honest<B, T>(p: Policy<B, T>, h: History<B>, look: Look<B>) {
    && look.now <= look.later
    && (match h(look.now)
        case Missing => look.stat == NotFound
        case Blocked => look.stat == StatFailed
        case There(s, _) => look.stat == Stamped(s))
    && (p.good(look.read) ==> h(look.later).There? && h(look.later).body == look.read)
  }

  /** A read that failed on its own account: what it gave is not what the file held. */
  ghost predicate Astray<B, T>(p: Policy<B, T>, h: History<B>, look: Look<B>) {
    !p.good(look.read) && !(h(look.later).There? && h(look.later).body == look.read)
  }

  /** When the last of some looks was over. */
  function Clock<B>(looks: seq<Look<B>>, clock: nat): nat {
    if looks == [] then clock else looks[|looks| - 1].later
  }

  /** What is held is a direct answer from a moment no older than the last stat, or what the read made at that very
      stat gave, one of those made that went astray; and a stamp held is that of the version held. */
  ghost predicate Fresh<B(!new), T>(p: Policy<B, T>, h: History<B>, c: Cache<T>, made: seq<Look<B>>, clock: nat) {
    && (c.lastStat.Some? ==>
          || (exists t: nat :: c.lastStat.value <= t <= clock && c.held == Direct(p, h(t)))
          || (exists m :: m in made && m.now == c.lastStat.value && Astray(p, h, m) && c.held == p.of(m.read)))
    && (c.stamp.Some? ==>
          c.lastStat.Some? && exists s: nat, t: nat :: Since(p, h, c, s, t, clock))
  }

  ghost predicate Since<B, T>(p: Policy<B, T>, h: History<B>, c: Cache<T>, s: nat, t: nat, clock: nat) {
    && s <= t <= clock && h(s).There? && h(s).stamp == c.stamp && h(t).There? && c.held == Direct(p, h(t))
  }

  /** A look that is not due leaves the cache as fresh as it was. */
  lemma StaysFresh<B(!new), T>(
    p: Policy<B, T>, h: History<B>, c: Cache<T>, made: seq<Look<B>>, clock: nat, later: nat)
    requires Fresh(p, h, c, made, clock) && clock <= later
    ensures Fresh(p, h, c, made, later)
  {
    if c.stamp.Some? {
      var s: nat, t: nat :| Since(p, h, c, s, t, clock);
      assert Since(p, h, c, s, t, later);
    }
  }

  /** One that finds the stamp held renews what is held: the file is that version still. */
  lemma UnchangedFresh<B(!new), T>(
    p: Policy<B, T>, h: History<B>, c: Cache<T>, made: seq<Look<B>>, look: Look<B>, clock: nat)
    requires Stamps(h) && Fresh(p, h, c, made, clock) && Honest(p, h, look) && clock <= look.now
    requires look.stat.Stamped? && Unchanged(c.stamp, look.stat.stamp)
    ensures Fresh(p, h, c.(lastStat := Some(look.now)), made, look.later)
  {
    var s: nat, t: nat :| Since(p, h, c, s, t, clock);
    assert h(t) == h(s) && h(look.now) == h(s);
    assert c.held == Direct(p, h(look.now));
    assert Since(p, h, c.(lastStat := Some(look.now)), s, t, look.later);
  }

  /** One that reads holds what the read gave, the file's or astray. */
  lemma ReadFresh<B(!new), T>(
    p: Policy<B, T>, debounce: nat, h: History<B>, c: Cache<T>, made: seq<Look<B>>, look: Look<B>)
    requires Honest(p, h, look) && Reads(debounce, c.lastStat, c.stamp, look) && look in made
    ensures Fresh(p, h, CacheNext(p, debounce, c, look), made, look.later)
  {
    var d := CacheNext(p, debounce, c, look);
    if !Astray(p, h, look) { assert d.held == Direct(p, h(look.later)); }
    if d.stamp.Some? { assert Since(p, h, d, look.now, look.later, look.later); }
  }

  lemma RefreshFresh<B(!new), T>(
    p: Policy<B, T>, debounce: nat, h: History<B>, c: Cache<T>, made: seq<Look<B>>, look: Look<B>, clock: nat)
    requires Stamps(h) && Fresh(p, h, c, made, clock) && Honest(p, h, look) && clock <= look.now
    ensures Fresh(p, h, CacheNext(p, debounce, c, look), made + ReadBy(debounce, c.lastStat, c.stamp, look), look.later)
  {
    assert made + [] == made;
    if Reads(debounce, c.lastStat, c.stamp, look) {
      ReadFresh(p, debounce, h, c, made + [look], look);
    } else if !Due(c.lastStat, look.now, debounce) {
      StaysFresh(p, h, c, made, clock, look.later);
    } else if look.stat.Stamped? {
      UnchangedFresh(p, h, c, made, look, clock);
    } else {
      assert CacheNext(p, debounce, c, look).held == Direct(p, h(look.now));
    }
  }
}
