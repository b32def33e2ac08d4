/** `serve.toml`, read live by a running `serve`: a cache that keeps what it last read. */
module ServeToml {
  import opened Wrappers
  import opened Debounce
  import Text

  datatype Settings = Settings(
    services: Option<seq<string>>, off: set<string>, relay: Option<string>, resolver: Option<string>)

  const EMPTY := Settings(None, {}, None, None)

  /** A read of the file: what it holds and its stamp, an absent file holding nothing; or why not. */
  datatype Taken = Got(file: Settings, stamp: Option<Stamp>) | Damaged | Unusable | Io

  /** What starting over a file would bind, name by name; nothing when that start would be refused. */
  type Runs = Settings -> Option<map<string, string>>

  /** What a run serves, fixed when its routes bound. */
  datatype Serving = Serving(bound: map<string, string>, relay: Option<string>, resolver: Option<string>)

  datatype Held = Held(
    file: Settings, running: Option<map<string, string>>, serving: Option<Serving>,
    stamp: Option<Stamp>, lastStat: Option<nat>)

  datatype Waiting = Waiting(relay: bool, resolver: bool, added: set<string>, changed: set<string>)

  const NOTHING := Waiting(false, false, {}, {})

  datatype SnapshotError = MissingStartup | InconsistentState

  /** Whether a read found a file that is there and runs. */
  predicate Good(runs: Runs, t: Taken) { t.Got? && t.stamp.Some? && runs(t.file).Some? }

  /** `Held::take`. A file refused for what it holds is marked as read, and any other failure is tried again. */
  function Took(runs: Runs, h: Held, t: Taken, statted: Option<Stamp>): Held {
    match t
    case Got(file, stamp) =>
      if runs(file).None? then h.(stamp := statted)
      else if stamp.None? then h
      else h.(file := file, running := runs(file), stamp := stamp)
    case Io => h
    case _ => h.(stamp := statted)
  }

  function HeldNext(runs: Runs, debounce: nat, h: Held, look: Look<Taken>): Held {
    if !Due(h.lastStat, look.now, debounce) then h
    else
      var asked := h.(lastStat := Some(look.now));
      match look.stat
      case Stamped(s) => if Unchanged(h.stamp, s) then asked else Took(runs, asked, look.read, s)
      case _ => asked
  }

  /** What was bound under a name that starting over the held file would not bind. */
  function Dropped(h: Held): set<string> {
    if h.serving.None? || h.running.None? then {}
    else set n | n in h.serving.value.bound && n !in h.running.value
  }

  predicate Refuses(h: Held, name: string) { name in h.file.off || name in Dropped(h) }

  function RefusedNames(h: Held): set<string> { h.file.off + Dropped(h) }

  function Pending(h: Held): Waiting {
    if h.serving.None? then NOTHING
    else
      var s := h.serving.value;
      var running := if h.running.Some? then h.running.value else map[];
      Waiting(h.file.relay != s.relay, h.file.resolver != s.resolver,
              set n | n in running && n !in s.bound,
              set n | n in running && n in s.bound && s.bound[n] != running[n])
  }

  /** The startup's names and targets, each with whether it is refused now. */
  function Snapshot(h: Held): Result<map<string, (string, bool)>, SnapshotError> {
    if h.serving.None? then Err(MissingStartup)
    else if h.running.None? then Err(InconsistentState)
    else
      var bound := h.serving.value.bound;
      Ok(map n | n in bound :: (bound[n], n in h.file.off || n !in h.running.value))
  }

  class LiveServeToml {
    const runs: Runs
    const debounce: nat
    const first: Settings
    var file: Settings
    var running: Option<map<string, string>>
    var serving: Option<Serving>
    var stamp: Option<Stamp>
    var lastStat: Option<nat>

    ghost function State(): Held
      reads this
    {
      Held(file, running, serving, stamp, lastStat)
    }

    /** `load`, once the file was read at `now`. */
    constructor (r: Runs, every: nat, read: Settings, at: Option<Stamp>, now: nat)
      ensures runs == r && debounce == every && first == read
      ensures State() == Held(read, r(read), None, at, Some(now))
    {
      runs, debounce, first := r, every, read;
      file, running, serving, stamp, lastStat := read, r(read), None, at, Some(now);
    }

    method Take(read: Taken, statted: Option<Stamp>)
      modifies `file, `running, `stamp
      ensures State() == Took(runs, old(State()), read, statted)
    {
      var good := read;
      if read.Got? && runs(read.file).None? { good := Damaged; }
      match good
      case Got(f, s) =>
        if s.Some? { file, running, stamp := f, runs(f), s; }
      case Damaged => stamp := statted;
      case Unusable => stamp := statted;
      case Io =>
    }

    method Refresh(look: Look<Taken>)
      modifies `file, `running, `stamp, `lastStat
      ensures State() == HeldNext(runs, debounce, old(State()), look)
    {
      if lastStat.Some? && look.now < lastStat.value + debounce { return; }
      lastStat := Some(look.now);
      if !look.stat.Stamped? || Unchanged(stamp, look.stat.stamp) { return; }
      Take(look.read, look.stat.stamp);
    }

    /** `serving`: re-read at once, whatever the debounce, and fix what the run serves. */
    method Serve(bound: map<string, string>, look: Look<Taken>)
      modifies this
      ensures var seen := HeldNext(runs, debounce, old(State()).(stamp := None, lastStat := None), look);
              State() == seen.(serving := Some(Serving(bound, seen.file.relay, seen.file.resolver)))
    {
      stamp, lastStat := None, None;
      Refresh(look);
      serving := Some(Serving(bound, file.relay, file.resolver));
    }

    method IsEnabled(name: string, look: Look<Taken>) returns (enabled: bool)
      modifies `file, `running, `stamp, `lastStat
      ensures State() == HeldNext(runs, debounce, old(State()), look)
      ensures enabled <==> !Refuses(State(), name)
    {
      Refresh(look);
      var dropped := serving.Some? && running.Some? && name in serving.value.bound && name !in running.value;
      enabled := name !in file.off && !dropped;
    }

    /** `refused`: what the status lists as off. */
    method Refused(look: Look<Taken>) returns (names: set<string>)
      modifies `file, `running, `stamp, `lastStat
      ensures State() == HeldNext(runs, debounce, old(State()), look)
      ensures names == RefusedNames(State())
    {
      Refresh(look);
      names := file.off;
      if serving.Some? && running.Some? {
        names := names + set n | n in serving.value.bound && n !in running.value;
      }
    }

    /** `local_service_snapshot`. */
    method ServiceSnapshot(look: Look<Taken>) returns (r: Result<map<string, (string, bool)>, SnapshotError>)
      modifies `file, `running, `stamp, `lastStat
      ensures State() == HeldNext(runs, debounce, old(State()), look)
      ensures r == Snapshot(State())
    {
      Refresh(look);
      if serving.None? { return Err(MissingStartup); }
      if running.None? { return Err(InconsistentState); }
      var bound, held, off := serving.value.bound, running.value, file.off;
      r := Ok(map n | n in bound :: (bound[n], n in off || n !in held));
    }

    /** `waiting`. */
    method Waits(look: Look<Taken>) returns (waiting: Waiting)
      modifies `file, `running, `stamp, `lastStat
      ensures State() == HeldNext(runs, debounce, old(State()), look)
      ensures waiting == Pending(State())
    {
      Refresh(look);
      if serving.None? { return NOTHING; }
      var s, held := serving.value, if running.Some? then running.value else map[];
      waiting := Waiting(file.relay != s.relay, file.resolver != s.resolver,
                         set n | n in held && n !in s.bound,
                         set n | n in held && n in s.bound && s.bound[n] != held[n]);
    }

    /** `watch`, for as many turns as the run lasts; `said` is what it hands to be printed. */
    method Watch(looks: seq<Look<Taken>>) returns (said: seq<Waiting>)
      modifies `file, `running, `stamp, `lastStat
      ensures State() == HeldAfter(runs, debounce, old(State()), looks)
      ensures said == Says(Pendings(runs, debounce, old(State()), looks))
    {
      ghost var start := State();
      said := [];
      var last := NOTHING;
      for i := 0 to |looks|
        invariant State() == HeldAfter(runs, debounce, start, looks[..i])
        invariant said == Says(Pendings(runs, debounce, start, looks[..i]))
        invariant last == if i == 0 then NOTHING else Pendings(runs, debounce, start, looks[..i])[i - 1]
      {
        assert looks[..i + 1] == looks[..i] + [looks[i]];
        PendingsAppend(runs, debounce, start, looks[..i], looks[i]);
        var waiting := Waits(looks[i]);
        if waiting != last {
          if waiting != NOTHING { said := said + [waiting]; }
          last := waiting;
        }
      }
      assert looks[..|looks|] == looks;
    }
  }

  /** What waits after each look of a run. */
  function Pendings(runs: Runs, debounce: nat, h: Held, looks: seq<Look<Taken>>): (r: seq<Waiting>)
    ensures |r| == |looks|
    decreases |looks|
  {
    if looks == [] then []
    else
      var d := HeldNext(runs, debounce, h, looks[0]);
      [Pending(d)] + Pendings(runs, debounce, d, looks[1..])
  }

  lemma {:induction false} PendingsAppend(
    runs: Runs, debounce: nat, h: Held, looks: seq<Look<Taken>>, look: Look<Taken>)
    ensures HeldAfter(runs, debounce, h, looks + [look])
         == HeldNext(runs, debounce, HeldAfter(runs, debounce, h, looks), look)
    ensures Pendings(runs, debounce, h, looks + [look])
         == Pendings(runs, debounce, h, looks) + [Pending(HeldAfter(runs, debounce, h, looks + [look]))]
    decreases |looks|
  {
    if looks == [] {
      assert looks + [look] == [look] && [look][1..] == [];
    } else {
      assert (looks + [look])[1..] == looks[1..] + [look];
      PendingsAppend(runs, debounce, HeldNext(runs, debounce, h, looks[0]), looks[1..], look);
    }
  }

  /** Whether turn `i` finds something waiting that the turn before did not. */
  predicate Fresh(ps: seq<Waiting>, i: nat)
    requires i < |ps|
  {
    ps[i] != NOTHING && (i > 0 ==> ps[i - 1] != ps[i])
  }

  /** What is said over a run of turns. */
  function Says(ps: seq<Waiting>): seq<Waiting> {
    if ps == [] then []
    else Says(ps[..|ps| - 1]) + if Fresh(ps, |ps| - 1) then [ps[|ps| - 1]] else []
  }

  /** Whatever waits was said, when it came to be so, and not said again while it stayed so. */
  lemma {:induction false} WaitingWasSaid(ps: seq<Waiting>, i: nat)
    requires i < |ps| && ps[i] != NOTHING
    ensures exists j :: 0 <= j <= i && Fresh(ps, j) && forall k :: j <= k <= i ==> ps[k] == ps[i]
    ensures ps[i] in Says(ps[..i + 1])
  {
    assert ps[..i + 1][..i] == ps[..i];
    if i == 0 || ps[i - 1] != ps[i] {
      assert Fresh(ps, i) && Fresh(ps[..i + 1], i);
    } else {
      WaitingWasSaid(ps, i - 1);
      var j :| 0 <= j <= i - 1 && Fresh(ps, j) && forall k :: j <= k <= i - 1 ==> ps[k] == ps[i - 1];
      assert forall k :: j <= k <= i ==> ps[k] == ps[i];
      assert ps[..i + 1][i] == ps[i] && ps[..i + 1][i - 1] == ps[i - 1];
    }
  }

  /** The gate, the status and the snapshot tell one story: a service is refused exactly when the status lists
      it, and on every name the run bound the snapshot's bit says the same. */
  lemma OneStory(h: Held, name: string)
    ensures Refuses(h, name) <==> name in RefusedNames(h)
    ensures Snapshot(h).Ok? && h.serving.Some? && name in h.serving.value.bound ==>
              && name in Snapshot(h).value
              && Snapshot(h).value[name] == (h.serving.value.bound[name], Refuses(h, name))
    ensures Snapshot(h).Ok? ==> Snapshot(h).value.Keys == h.serving.value.bound.Keys
  {}

  /** Nothing waits and nothing was dropped exactly when the file runs what is bound, through the same relay
      and resolver; a file whose services cannot run is never held once one that can was read. */
  lemma NothingPends(h: Held)
    requires h.serving.Some?
    ensures Pending(h) == NOTHING && Dropped(h) == {} <==>
              && h.file.relay == h.serving.value.relay && h.file.resolver == h.serving.value.resolver
              && (h.running.None? || h.running == Some(h.serving.value.bound))
  {
    if Pending(h) == NOTHING && Dropped(h) == {} && h.running.Some? {
      var running, bound := h.running.value, h.serving.value.bound;
      forall n ensures n in running <==> n in bound {
        assert n in running && n !in bound ==> n in Pending(h).added;
        assert n in bound && n !in running ==> n in Dropped(h);
      }
      forall n | n in running ensures running[n] == bound[n] {
        assert n in bound && bound[n] != running[n] ==> n in Pending(h).changed;
      }
      assert running == bound;
    }
  }

  /** What is refused, exactly: a name the held file has off, and one the run bound that the file runs no more. */
  lemma RefusesExact(h: Held, name: string)
    ensures Refuses(h, name) <==>
              || name in h.file.off
              || (h.serving.Some? && name in h.serving.value.bound && h.running.Some? && name !in h.running.value)
    ensures Snapshot(h) == Err(MissingStartup) <==> h.serving.None?
    ensures Snapshot(h) == Err(InconsistentState) <==> h.serving.Some? && h.running.None?
  {}

  /** What waits for the next start, exactly: where the relay or the resolver is not the one the run has, a service the
      file runs that the run did not bind, and one it runs under another target. */
  lemma PendingExact(h: Held, name: string)
    requires h.serving.Some?
    ensures var s, p := h.serving.value, Pending(h);
            var now := if h.running.Some? && name in h.running.value then Some(h.running.value[name]) else None;
            var bound := if name in s.bound then Some(s.bound[name]) else None;
            && (p.relay <==> h.file.relay != s.relay) && (p.resolver <==> h.file.resolver != s.resolver)
            && (name in p.added <==> now.Some? && bound.None?)
            && (name in p.changed <==> now.Some? && bound.Some? && now != bound)
  {}

  /** A turn says what waits when it is not what the turn before found, and says nothing when nothing waits. */
  lemma SaysTurn(ps: seq<Waiting>, p: Waiting)
    ensures Says(ps + [p]) ==
            if p == NOTHING || (ps != [] && ps[|ps| - 1] == p) then Says(ps) else Says(ps) + [p]
  {
    assert (ps + [p])[..|ps|] == ps;
    assert Says(ps) + [] == Says(ps);
  }

  // --- over any run of looks ---

  function HeldAfter(runs: Runs, debounce: nat, h: Held, looks: seq<Look<Taken>>): Held
    decreases |looks|
  {
    if looks == [] then h else HeldAfter(runs, debounce, HeldNext(runs, debounce, h, looks[0]), looks[1..])
  }

  /** A look at a file that is missing, damaged or unreadable changes nothing held, and a good one takes all of
      it, so what is held is always the whole of one good read and what it runs. */
  lemma LookExact(runs: Runs, debounce: nat, h: Held, look: Look<Taken>)
    requires h.running == runs(h.file)
    ensures var d := HeldNext(runs, debounce, h, look);
            && d.serving == h.serving && d.running == runs(d.file)
            && d.file == (if && (h.lastStat.None? || look.now >= h.lastStat.value + debounce)
                             && look.stat.Stamped? && (look.stat.stamp.None? || look.stat.stamp != h.stamp)
                             && look.read.Got? && look.read.stamp.Some? && runs(look.read.file).Some?
                          then look.read.file else h.file)
            && (h.running.Some? ==> d.running.Some?)
  {}

  /** What a look remembers of when and what it looked at: the stat when one was due; and of a read, its own stamp when
      it was good, the stat's when the file was refused for what it holds, and else what was remembered. */
  lemma MarkExact(runs: Runs, debounce: nat, h: Held, look: Look<Taken>)
    ensures var d := HeldNext(runs, debounce, h, look);
            var refused := look.read.Damaged? || look.read.Unusable? || (look.read.Got? && runs(look.read.file).None?);
            && d.lastStat == (if Due(h.lastStat, look.now, debounce) then Some(look.now) else h.lastStat)
            && d.stamp == (if !Reads(debounce, h.lastStat, h.stamp, look) then h.stamp
                           else if Good(runs, look.read) then look.read.stamp
                           else if refused then look.stat.stamp
                           else h.stamp)
  {}

  /** So a service off stays off, through any run of failed looks. */
  lemma {:induction false} FailuresKeepAll(runs: Runs, debounce: nat, h: Held, looks: seq<Look<Taken>>)
    requires h.running == runs(h.file)
    requires forall i :: 0 <= i < |looks| ==> !Good(runs, looks[i].read)
    ensures var d := HeldAfter(runs, debounce, h, looks);
            && d.file == h.file && d.running == h.running && d.serving == h.serving
            && RefusedNames(d) == RefusedNames(h) && Pending(d) == Pending(h)
    decreases |looks|
  {
    if looks != [] {
      LookExact(runs, debounce, h, looks[0]);
      FailuresKeepAll(runs, debounce, HeldNext(runs, debounce, h, looks[0]), looks[1..]);
    }
  }

  /** Over any run of looks, good and bad, what is held is what its file runs, and once it runs it goes on
      running. */
  lemma {:induction false} HeldIsWhole(runs: Runs, debounce: nat, h: Held, looks: seq<Look<Taken>>)
    requires h.running == runs(h.file)
    ensures var d := HeldAfter(runs, debounce, h, looks);
            && d.running == runs(d.file) && d.serving == h.serving
            && (h.running.Some? ==> d.running.Some?)
            && (|| d.file == h.file
                || exists i :: 0 <= i < |looks| && Good(runs, looks[i].read) && looks[i].read.file == d.file)
    decreases |looks|
  {
    if looks != [] {
      var next := HeldNext(runs, debounce, h, looks[0]);
      LookExact(runs, debounce, h, looks[0]);
      HeldIsWhole(runs, debounce, next, looks[1..]);
      var d := HeldAfter(runs, debounce, h, looks);
      if i :| 0 <= i < |looks[1..]| && Good(runs, looks[1..][i].read) && looks[1..][i].read.file == d.file {
        assert Good(runs, looks[i + 1].read) && looks[i + 1].read.file == d.file;
      } else if d.file != h.file {
        assert Good(runs, looks[0].read) && looks[0].read.file == d.file;
      }
    }
  }

  // --- how old what is held may be ---

  /** The file at every moment; a body refused for what it holds reads as none. */
  type Past = History<Option<Settings>>

  /** A version a running `serve` would take: dated, readable, and one that runs. */
  predicate Current(runs: Runs, f: FileAt<Option<Settings>>) {
    f.There? && f.stamp.Some? && f.body.Some? && runs(f.body.value).Some?
  }

  /** What a read of the file at one moment may give; it may also fail on its own account. */
  predicate Finds(f: FileAt<Option<Settings>>, t: Taken) {
    match t
    case Got(file, Some(s)) => f == There(Some(s), Some(file))
    case Got(file, None) => (f.There? && f.body == Some(file)) || (f.Missing? && file == EMPTY)
    case Io => true
    case _ => f.There? && f.body.None?
  }

  /** A look answers for the file as it stands, the stat for its moment and the read for its own. */
  ghost predicate Truthful(p: Past, look: Look<Taken>) {
    && look.now <= look.later
    && (match p(look.now)
        case Missing => look.stat == NotFound
        case Blocked => look.stat == StatFailed
        case There(s, _) => look.stat == Stamped(s))
    && Finds(p(look.later), look.read)
  }

  ghost predicate TruthfulRun(p: Past, looks: seq<Look<Taken>>, clock: nat)
    decreases |looks|
  {
    looks != [] ==>
      clock <= looks[0].now && Truthful(p, looks[0]) && TruthfulRun(p, looks[1..], looks[0].later)
  }

  /** A read that failed on its own account, or gave what cannot be dated. */
  predicate Undated(t: Taken) { t.Io? || (t.Got? && t.stamp.None?) }

  /** The file at that moment is what is held, or nothing a running `serve` would take. */
  predicate Agrees(runs: Runs, f: FileAt<Option<Settings>>, h: Held) {
    Current(runs, f) ==> f.body == Some(h.file) && h.running == runs(h.file)
  }

  /** The held stamp was that of the file at `s`, and what is held agrees with the file at `t`. */
  ghost predicate Backed(runs: Runs, p: Past, h: Held, s: nat, t: nat, clock: nat) {
    && s <= t <= clock && p(s).There? && p(s).stamp == h.stamp && Agrees(runs, p(t), h)
  }

  /** The looks of a run that come to a read. */
  function Reading(runs: Runs, debounce: nat, h: Held, looks: seq<Look<Taken>>): seq<Look<Taken>>
    decreases |looks|
  {
    if looks == [] then []
    else
      ReadBy(debounce, h.lastStat, h.stamp, looks[0])
      + Reading(runs, debounce, HeldNext(runs, debounce, h, looks[0]), looks[1..])
  }

  /** What is held agrees with the file at a moment no earlier than `from`, or one of the reads made since was
      undated. */
  ghost predicate AgreesSince(
    runs: Runs, p: Past, h: Held, made: seq<Look<Taken>>, from: nat, clock: nat)
  {
    || (exists t: nat :: from <= t <= clock && Agrees(runs, p(t), h))
    || (exists look :: look in made && look.now >= from && Undated(look.read))
  }

  ghost predicate Timely(runs: Runs, p: Past, h: Held, made: seq<Look<Taken>>, clock: nat) {
    && (h.lastStat.Some? ==> AgreesSince(runs, p, h, made, h.lastStat.value, clock))
    && (h.stamp.Some? ==> exists s: nat, t: nat :: Backed(runs, p, h, s, t, clock))
  }

  lemma UnchangedAgrees(runs: Runs, p: Past, h: Held, look: Look<Taken>, clock: nat)
    requires Stamps(p) && Truthful(p, look) && clock <= look.now
    requires look.stat.Stamped? && Unchanged(h.stamp, look.stat.stamp)
    requires exists s: nat, t: nat :: Backed(runs, p, h, s, t, clock)
    ensures Agrees(runs, p(look.now), h)
  {
    var s: nat, t: nat :| Backed(runs, p, h, s, t, clock);
    assert p(t) == p(s) && p(look.now) == p(s);
  }

  /** One read taken or refused. */
  lemma TookTimely(runs: Runs, p: Past, h: Held, made: seq<Look<Taken>>, look: Look<Taken>, clock: nat)
    requires Truthful(p, look) && clock <= look.now && look.stat.Stamped? && look in made
    requires h.stamp.Some? ==> exists s: nat, t: nat :: Backed(runs, p, h, s, t, clock)
    ensures Timely(runs, p, Took(runs, h.(lastStat := Some(look.now)), look.read, look.stat.stamp), made, look.later)
  {
    var d := Took(runs, h.(lastStat := Some(look.now)), look.read, look.stat.stamp);
    if Undated(look.read) && d.stamp == h.stamp && h.stamp.Some? {
      var s: nat, t: nat :| Backed(runs, p, h, s, t, clock);
      assert Backed(runs, p, d, s, t, look.later);
    } else if look.read.Got? && d.stamp == look.read.stamp && d.file == look.read.file && Good(runs, look.read) {
      assert Backed(runs, p, d, look.later, look.later, look.later);
    } else if d.stamp.Some? {
      assert Backed(runs, p, d, look.now, look.later, look.later);
    }
    assert Undated(look.read) || Agrees(runs, p(look.later), d);
  }

  lemma StaysTimely(
    runs: Runs, p: Past, h: Held, made: seq<Look<Taken>>, more: seq<Look<Taken>>, clock: nat, later: nat)
    requires Timely(runs, p, h, made, clock) && clock <= later
    ensures Timely(runs, p, h, made + more, later)
  {
    if h.stamp.Some? {
      var s: nat, t: nat :| Backed(runs, p, h, s, t, clock);
      assert Backed(runs, p, h, s, t, later);
    }
    if h.lastStat.Some? {
      var from := h.lastStat.value;
      if t: nat :| from <= t <= clock && Agrees(runs, p(t), h) {
        assert t <= later;
      } else {
        var look :| look in made && look.now >= from && Undated(look.read);
        assert look in made + more;
      }
    }
  }

  /** A look that reads nothing: no file, a stat that failed, or the stamp held. */
  lemma UnreadTimely(runs: Runs, p: Past, h: Held, made: seq<Look<Taken>>, look: Look<Taken>, clock: nat)
    requires Stamps(p) && Truthful(p, look) && clock <= look.now
    requires !look.stat.Stamped? || Unchanged(h.stamp, look.stat.stamp)
    requires h.stamp.Some? ==> exists s: nat, t: nat :: Backed(runs, p, h, s, t, clock)
    ensures Timely(runs, p, h.(lastStat := Some(look.now)), made, look.later)
  {
    var asked := h.(lastStat := Some(look.now));
    if look.stat.Stamped? { UnchangedAgrees(runs, p, h, look, clock); }
    assert Agrees(runs, p(look.now), asked);
    if h.stamp.Some? {
      var s: nat, t: nat :| Backed(runs, p, h, s, t, clock);
      assert Backed(runs, p, asked, s, t, look.later);
    }
  }

  lemma LookTimely(
    runs: Runs, debounce: nat, p: Past, h: Held, made: seq<Look<Taken>>, look: Look<Taken>, clock: nat)
    requires Stamps(p) && Truthful(p, look) && clock <= look.now && Timely(runs, p, h, made, clock)
    ensures Timely(runs, p, HeldNext(runs, debounce, h, look), made + ReadBy(debounce, h.lastStat, h.stamp, look),
                   look.later)
  {
    if Reads(debounce, h.lastStat, h.stamp, look) {
      TookTimely(runs, p, h, made + [look], look, clock);
    } else if Due(h.lastStat, look.now, debounce) {
      UnreadTimely(runs, p, h, made + [], look, clock);
    } else {
      StaysTimely(runs, p, h, made, [], clock, look.later);
    }
  }

  lemma {:induction false} RunTimely(
    runs: Runs, debounce: nat, p: Past, h: Held, made: seq<Look<Taken>>, looks: seq<Look<Taken>>, clock: nat)
    requires Stamps(p) && TruthfulRun(p, looks, clock) && Timely(runs, p, h, made, clock)
    ensures Timely(runs, p, HeldAfter(runs, debounce, h, looks), made + Reading(runs, debounce, h, looks),
                   Clock(looks, clock))
    decreases |looks|
  {
    if looks == [] {
      assert made + [] == made;
    } else {
      var look, next, rest := looks[0], HeldNext(runs, debounce, h, looks[0]), looks[1..];
      LookTimely(runs, debounce, p, h, made, look, clock);
      RunTimely(runs, debounce, p, next, made + ReadBy(debounce, h.lastStat, h.stamp, look), rest, look.later);
      Text.Chain(made, ReadBy(debounce, h.lastStat, h.stamp, look), Reading(runs, debounce, next, rest));
    }
  }

  /** At some moment less than a debounce before an ask, or during it, the file was what is held, or nothing a
      running `serve` would take; or a read made since then failed on its own account or found nothing dated. */
  ghost predicate NearlyCurrent(
    runs: Runs, debounce: nat, p: Past, h: Held, made: seq<Look<Taken>>, ask: Look<Taken>)
  {
    || (exists t: nat :: ask.now < t + debounce && t <= ask.later && Agrees(runs, p(t), h))
    || (exists look :: look in made && ask.now < look.now + debounce && Undated(look.read))
  }

  lemma TimelyIsNear(
    runs: Runs, debounce: nat, p: Past, h: Held, made: seq<Look<Taken>>, ask: Look<Taken>)
    requires Timely(runs, p, h, made, ask.later) && !Due(h.lastStat, ask.now, debounce)
    ensures NearlyCurrent(runs, debounce, p, h, made, ask)
  {
    var from := h.lastStat.value;
    if t: nat :| from <= t <= ask.later && Agrees(runs, p(t), h) {
      assert ask.now < t + debounce;
    } else {
      var look :| look in made && look.now >= from && Undated(look.read);
      assert ask.now < look.now + debounce;
    }
  }

  lemma NoneDueThen(runs: Runs, debounce: nat, h: Held, look: Look<Taken>)
    requires debounce > 0
    ensures !Due(HeldNext(runs, debounce, h, look).lastStat, look.now, debounce)
  {}

  /** The looks of a run and one ask more that come to a read. */
  function ReadsTo(runs: Runs, debounce: nat, h: Held, looks: seq<Look<Taken>>, ask: Look<Taken>): seq<Look<Taken>> {
    var c := HeldAfter(runs, debounce, h, looks);
    Reading(runs, debounce, h, looks) + ReadBy(debounce, c.lastStat, c.stamp, ask)
  }

  /** From the re-read `serving` makes on, after any looks and one ask more, what is held is that near to the file. */
  lemma HeldIsCurrent(
    runs: Runs, debounce: nat, p: Past, h: Held, looks: seq<Look<Taken>>, ask: Look<Taken>)
    requires Stamps(p) && TruthfulRun(p, looks, 0) && Truthful(p, ask) && Clock(looks, 0) <= ask.now
    requires h.stamp.None? && h.lastStat.None? && debounce > 0
    ensures var d := HeldNext(runs, debounce, HeldAfter(runs, debounce, h, looks), ask);
            NearlyCurrent(runs, debounce, p, d, ReadsTo(runs, debounce, h, looks, ask), ask)
  {
    var c, made := HeldAfter(runs, debounce, h, looks), Reading(runs, debounce, h, looks);
    RunTimely(runs, debounce, p, h, [], looks, 0);
    assert [] + made == made;
    LookTimely(runs, debounce, p, c, made, ask, Clock(looks, 0));
    NoneDueThen(runs, debounce, c, ask);
    made := made + ReadBy(debounce, c.lastStat, c.stamp, ask);
    TimelyIsNear(runs, debounce, p, HeldNext(runs, debounce, c, ask), made, ask);
  }

  /** So while the file stays one that runs, and reads succeed, a service turned off or dropped is refused no later
      than a debounce after the file says so: what is held is the file itself, and all of it, at a moment that near. */
  lemma ReadsKeepCurrent(
    runs: Runs, debounce: nat, p: Past, h: Held, looks: seq<Look<Taken>>, ask: Look<Taken>)
    requires Stamps(p) && TruthfulRun(p, looks, 0) && Truthful(p, ask) && Clock(looks, 0) <= ask.now
    requires h.stamp.None? && h.lastStat.None? && debounce > 0
    requires forall look | look in ReadsTo(runs, debounce, h, looks, ask) && ask.now < look.now + debounce ::
               !Undated(look.read)
    requires forall t: nat | ask.now < t + debounce && t <= ask.later :: Current(runs, p(t))
    ensures var d := HeldNext(runs, debounce, HeldAfter(runs, debounce, h, looks), ask);
            exists t: nat :: ask.now < t + debounce && t <= ask.later && p(t).There? && p(t).body == Some(d.file)
                             && d.running == runs(d.file)
  {
    HeldIsCurrent(runs, debounce, p, h, looks, ask);
    var d := HeldNext(runs, debounce, HeldAfter(runs, debounce, h, looks), ask);
    var t: nat :| ask.now < t + debounce && t <= ask.later && Agrees(runs, p(t), d);
    assert Current(runs, p(t));
  }
}
