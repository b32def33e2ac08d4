/** One stream between two devices of a root: which update moves, which forks pass, and how far a list spreads. */
module Exchange {
  import opened Wrappers
  import opened Codec
  import opened Roster
  import opened Fold

  /** A device's rules and its home. */
  datatype Node = Node(rules: Rules, home: Home)

  /** When a device's standing ends, and its clock, as an exchange finds them. */
  datatype Turn = Turn(until: nat, now: nat)

  datatype Answer = Same | Took | Forked | Gave | ForkRecorded(floor: u64) | Refused
  datatype ExchangeError = NotHeld | Protocol | FoldFailed

  datatype Reply = SameAs(digest: Bytes) | Mine | SendYours | Both

  const ALL := Access(true, true)

  /** The update held, or no bytes for none. */
  function HeldBytes(n: Node): Bytes {
    if Held(n.rules, n.home.devices, true).Some? then n.home.devices.value else []
  }

  function HeldNumber(n: Node): u64 { Number(n.rules, n.home, true) }

  /** The fork kept, or no bytes for none. */
  function KeptFork(n: Node): Bytes {
    if Held(n.rules, n.home.conflict, true).Some? then n.home.conflict.value else []
  }

  function FoldHere(n: Node, t: Turn, bytes: Bytes): (Node, Result<Folded, FoldError>) {
    if |bytes| > MAX_ROSTER_BLOB then (n, Err(Oversize))
    else if Verified(n.rules, bytes).None? then (n, Err(NotVerified))
    else
      var (home, said) := Folding(n.rules, n.home, bytes, Verified(n.rules, bytes).value, t.until, t.now, ALL);
      (n.(home := home), Ok(said))
  }

  /** `take_fork`: none, or one that will not fold, changes nothing. */
  function TakeFork(n: Node, t: Turn, fork: Bytes): Node {
    if fork == [] || |fork| > MAX_ROSTER_BLOB || Verified(n.rules, fork).None? then n
    else n.(home := FoldingFork(n.rules, n.home, fork, Verified(n.rules, fork).value, t.now, ALL))
  }

  /** What the server answers a dialer that names an update by its number and digest. */
  function Replies(digest: Bytes -> Bytes, server: Node, number: u64, named: Bytes): Reply {
    var mine, bytes := HeldNumber(server), HeldBytes(server);
    if number == mine && named == digest(bytes) then SameAs(digest(bytes))
    else if mine > number then Mine
    else if mine == number && bytes != [] then Both
    else SendYours
  }

  type Outcome = (Node, Node, Result<Answer, ExchangeError>)

  /** The forks each kept before, passed once the updates have moved. */
  function Passing(a: Node, b: Node, s: Turn, t: Turn, fromA: Bytes, fromB: Bytes, answer: Answer): Outcome {
    (TakeFork(a, s, fromB), TakeFork(b, t, fromA), Ok(answer))
  }

  /** `same`: nothing moves but the forks, and not those when neither side holds an update. */
  function Alike(digest: Bytes -> Bytes, a: Node, b: Node, s: Turn, t: Turn, theirs: Bytes): Outcome {
    if theirs != digest(HeldBytes(a)) then (a, b, Err(NotHeld))
    else if theirs == digest([]) then (a, b, Ok(Answer.Same))
    else Passing(a, b, s, t, KeptFork(a), KeptFork(b), Answer.Same)
  }

  /** `send yours`: the dialer's update goes to the server, which folds it and says how. */
  function Giving(a: Node, b: Node, s: Turn, t: Turn): Outcome {
    var (b1, said) := FoldHere(b, t, HeldBytes(a));
    var answer := match said
      case Ok(Fork(floor)) => ForkRecorded(floor)
      case Ok(NotNewer) => Refused
      case Ok(_) => Gave
      case Err(_) => Refused;
    Passing(a, b1, s, t, KeptFork(a), KeptFork(b), answer)
  }

  /** `mine` and `both`: the server's update comes to the dialer, and after `both` the dialer's goes back. */
  function Taking(digest: Bytes -> Bytes, a: Node, b: Node, s: Turn, t: Turn, both: bool): Outcome {
    var theirs := HeldBytes(b);
    if digest(theirs) == digest(HeldBytes(a)) then (a, b, Err(Protocol))
    else
      var b1 := if both then FoldHere(b, t, HeldBytes(a)).0 else b;
      var (a1, said) := FoldHere(a, s, theirs);
      match said
      case Err(_) => (a1, b1, Err(FoldFailed))
      case Ok(NotNewer) => (a1, b1, Err(Protocol))
      case Ok(folded) => Passing(a1, b1, s, t, KeptFork(a), KeptFork(b), if folded.Fork? then Forked else Took)
  }

  /** One exchange, every frame arriving and every write going through; `a` dials `b`. */
  function Exchanging(digest: Bytes -> Bytes, a: Node, b: Node, s: Turn, t: Turn): Outcome {
    match Replies(digest, b, HeldNumber(a), digest(HeldBytes(a)))
    case SameAs(d) => Alike(digest, a, b, s, t, d)
    case SendYours => Giving(a, b, s, t)
    case Mine => Taking(digest, a, b, s, t, false)
    case Both => Taking(digest, a, b, s, t, true)
  }

  // --- what an exchange comes to ---

  ghost predicate SamePin(a: Rules, b: Rules) { a.update == b.update }

  /** The digest tells these updates, and none, apart. */
  predicate Tells(digest: Bytes -> Bytes, known: set<Bytes>) {
    forall x, y :: x in known + {[]} && y in known + {[]} && digest(x) == digest(y) ==> x == y
  }

  predicate Sound(n: Node, now: nat) { Upheld(n.rules, n.home, now) }

  ghost predicate Grown(was: Node, n: Node) {
    n.rules == was.rules && was.home.keys <= n.home.keys && was.home.ids <= n.home.ids
  }

  lemma HeldIs(n: Node)
    ensures HeldBytes(n) == [] <==> Held(n.rules, n.home.devices, true).None?
    ensures HeldBytes(n) != [] ==>
              && |HeldBytes(n)| <= MAX_ROSTER_BLOB && Verified(n.rules, HeldBytes(n)).Some?
              && HeldNumber(n) == Verified(n.rules, HeldBytes(n)).value.epoch
    ensures HeldBytes(n) == [] ==> HeldNumber(n) == 0
    ensures KeptFork(n) != [] ==> |KeptFork(n)| <= MAX_ROSTER_BLOB && Verified(n.rules, KeptFork(n)).Some?
  {}

  /** An update folded: taken when newer, a fork recorded when it is another at the number held, and refused to
      either no part of what it revokes. */
  lemma FoldHereExact(n: Node, t: Turn, bytes: Bytes, now: nat)
    requires Sound(n, now) && t.now <= now && |bytes| <= MAX_ROSTER_BLOB && Verified(n.rules, bytes).Some?
    ensures var (m, r) := FoldHere(n, t, bytes);
            var d := Verified(n.rules, bytes).value;
            && Sound(m, now) && Grown(n, m)
            && (d.epoch > HeldNumber(n) ==> r == Ok(Newer) && HeldBytes(m) == bytes)
            && (d.epoch == HeldNumber(n) > 0 && bytes != HeldBytes(n) ==>
                  r == Ok(Fork(HeldNumber(n))) && HeldBytes(m) == HeldBytes(n) && Denies(n.rules, m.home, d, now))
  {
    var d := Verified(n.rules, bytes).value;
    FoldingMoves(n.rules, n.home, bytes, d, t.until, t.now, ALL);
    MoveUpholds(n.rules, n.home, FoldHere(n, t, bytes).0.home, Folds(bytes, t.until, t.now, ALL), now);
    NewerExact(n.rules, n.home, bytes, d, t.until, t.now, ALL);
    var m := FoldHere(n, t, bytes).0;
    if Denies(n.rules, m.home, d, t.now) { DeniesStill(n.rules, m.home, m.home, d, t.now, now); }
  }

  /** A fork taken leaves the update held alone, and all it revokes is refused: added, or carried already. */
  lemma TakeForkExact(n: Node, t: Turn, fork: Bytes, now: nat)
    requires Sound(n, now) && t.now <= now
    ensures var m := TakeFork(n, t, fork);
            && Sound(m, now) && Grown(n, m) && m.home.devices == n.home.devices
            && (&& fork != [] && |fork| <= MAX_ROSTER_BLOB && Verified(n.rules, fork).Some?
                && Agrees(n, fork, t.now, now) ==>
                  Denies(n.rules, m.home, Verified(n.rules, fork).value, now))
  {
    if fork != [] && |fork| <= MAX_ROSTER_BLOB && Verified(n.rules, fork).Some? {
      var d := Verified(n.rules, fork).value;
      var m := TakeFork(n, t, fork);
      FoldingForkMoves(n.rules, n.home, fork, d, t.now, ALL);
      MoveUpholds(n.rules, n.home, m.home, Forks(fork, t.now, ALL), now);
      var held := Held(n.rules, n.home.devices, true);
      if Agrees(n, fork, t.now, now) && held.Some? && n.home.devices != Some(fork) && Carries(held.value, d, t.now) {
        CarriedIsDenied(n.rules, held.value, d, t.now, now);
      } else if Denies(n.rules, m.home, d, t.now) {
        DeniesStill(n.rules, m.home, m.home, d, t.now, now);
      }
    }
  }

  /** The update a node holds, if it carries a fork when the fork comes to it, at `at`, lists none of the fork's ids
      as ending sooner than now. */
  predicate Agrees(n: Node, fork: Bytes, at: nat, now: nat) {
    Verified(n.rules, HeldBytes(n)).Some? && Verified(n.rules, fork).Some? ==>
      var d, f := Verified(n.rules, HeldBytes(n)).value, Verified(n.rules, fork).value;
      Carries(d, f, at) ==> Outlasts(d, f, now)
  }

  /** The higher of two numbers. */
  function Higher(a: u64, b: u64): u64 { if a < b then b else a }

  /** The updates moved, as the numbers say: the newer to the other side, or each to each. */
  function Moved(a: Node, b: Node, s: Turn, t: Turn): (Node, Node) {
    var x, y := HeldBytes(a), HeldBytes(b);
    if x == y then (a, b)
    else if HeldNumber(b) > HeldNumber(a) then (FoldHere(a, s, y).0, b)
    else if HeldNumber(a) > HeldNumber(b) then (a, FoldHere(b, t, x).0)
    else (FoldHere(a, s, y).0, FoldHere(b, t, x).0)
  }

  lemma MovedExact(a: Node, b: Node, s: Turn, t: Turn, now: nat)
    requires SamePin(a.rules, b.rules) && Sound(a, now) && Sound(b, now) && s.now <= now && t.now <= now
    ensures var (a1, b1) := Moved(a, b, s, t);
            && Sound(a1, now) && Sound(b1, now) && Grown(a, a1) && Grown(b, b1)
            && HeldBytes(a1) == (if HeldNumber(b) > HeldNumber(a) then HeldBytes(b) else HeldBytes(a))
            && HeldBytes(b1) == (if HeldNumber(a) > HeldNumber(b) then HeldBytes(a) else HeldBytes(b))
            && HeldNumber(a1) == HeldNumber(b1) == Higher(HeldNumber(a), HeldNumber(b))
  {
    HeldIs(a);
    HeldIs(b);
    if HeldBytes(b) != [] { FoldHereExact(a, s, HeldBytes(b), now); }
    if HeldBytes(a) != [] { FoldHereExact(b, t, HeldBytes(a), now); }
    HeldIs(Moved(a, b, s, t).0);
    HeldIs(Moved(a, b, s, t).1);
  }

  /** What the numbers say each exchange answers. */
  function Said(a: Node, b: Node): Answer {
    if HeldBytes(a) == HeldBytes(b) then Answer.Same
    else if HeldNumber(b) > HeldNumber(a) then Took
    else if HeldNumber(a) > HeldNumber(b) then Gave
    else Forked
  }

  lemma RepliesAre(digest: Bytes -> Bytes, a: Node, b: Node, now: nat)
    requires SamePin(a.rules, b.rules) && Tells(digest, {HeldBytes(a), HeldBytes(b)}) && Sound(a, now) && Sound(b, now)
    ensures Replies(digest, b, HeldNumber(a), digest(HeldBytes(a))) ==
            match Said(a, b)
            case Same => SameAs(digest(HeldBytes(a)))
            case Took => Mine
            case Gave => SendYours
            case _ => Both
  {}

  lemma GivingIs(a: Node, b: Node, s: Turn, t: Turn, now: nat)
    requires SamePin(a.rules, b.rules) && Sound(b, now) && t.now <= now && HeldNumber(a) > HeldNumber(b)
    ensures Giving(a, b, s, t) == Passing(a, FoldHere(b, t, HeldBytes(a)).0, s, t, KeptFork(a), KeptFork(b), Gave)
  {
    HeldIs(a);
    FoldHereExact(b, t, HeldBytes(a), now);
  }

  lemma TakingIs(digest: Bytes -> Bytes, a: Node, b: Node, s: Turn, t: Turn, both: bool, now: nat)
    requires SamePin(a.rules, b.rules) && Sound(a, now) && s.now <= now
    requires HeldNumber(b) >= HeldNumber(a) && HeldNumber(b) > 0
    requires digest(HeldBytes(b)) != digest(HeldBytes(a))
    ensures Taking(digest, a, b, s, t, both) ==
            Passing(FoldHere(a, s, HeldBytes(b)).0, if both then FoldHere(b, t, HeldBytes(a)).0 else b, s, t,
                    KeptFork(a), KeptFork(b), if HeldNumber(b) > HeldNumber(a) then Took else Forked)
  {
    HeldIs(b);
    FoldHereExact(a, s, HeldBytes(b), now);
  }

  /** What the frames settle on is what the numbers say, with the forks passed once an update is held. */
  lemma ExchangingIs(digest: Bytes -> Bytes, a: Node, b: Node, s: Turn, t: Turn, now: nat)
    requires SamePin(a.rules, b.rules) && Tells(digest, {HeldBytes(a), HeldBytes(b)})
    requires Sound(a, now) && Sound(b, now) && s.now <= now && t.now <= now
    ensures var (a1, b1) := Moved(a, b, s, t);
            Exchanging(digest, a, b, s, t) ==
            if HeldBytes(a) == [] == HeldBytes(b) then (a, b, Ok(Answer.Same))
            else Passing(a1, b1, s, t, KeptFork(a), KeptFork(b), Said(a, b))
  {
    RepliesAre(digest, a, b, now);
    HeldIs(a);
    HeldIs(b);
    if Said(a, b) == Took {
      TakingIs(digest, a, b, s, t, false, now);
      assert Moved(a, b, s, t) == (FoldHere(a, s, HeldBytes(b)).0, b);
    } else if Said(a, b) == Gave {
      GivingIs(a, b, s, t, now);
      assert Moved(a, b, s, t) == (a, FoldHere(b, t, HeldBytes(a)).0);
    } else if Said(a, b) == Forked {
      TakingIs(digest, a, b, s, t, true, now);
      assert Moved(a, b, s, t) == (FoldHere(a, s, HeldBytes(b)).0, FoldHere(b, t, HeldBytes(a)).0);
    }
  }

  /** Two devices of one root, after an exchange, hold the same update, the newer of theirs; or, where the root
      was copied and both signed, each keeps its own and says so. Neither admits again what it refused. */
  lemma Converges(digest: Bytes -> Bytes, a: Node, b: Node, s: Turn, t: Turn, now: nat)
    requires SamePin(a.rules, b.rules) && Tells(digest, {HeldBytes(a), HeldBytes(b)})
    requires Sound(a, now) && Sound(b, now) && s.now <= now && t.now <= now
    ensures var (a', b', r) := Exchanging(digest, a, b, s, t);
            && r.Ok?
            && Sound(a', now) && Sound(b', now) && Grown(a, a') && Grown(b, b')
            && HeldNumber(a') == HeldNumber(b') == Higher(HeldNumber(a), HeldNumber(b))
            && HeldBytes(a') == (if HeldNumber(b) > HeldNumber(a) then HeldBytes(b) else HeldBytes(a))
            && HeldBytes(b') == (if HeldNumber(a) > HeldNumber(b) then HeldBytes(a) else HeldBytes(b))
            && (r.value == Answer.Same <==> HeldBytes(a) == HeldBytes(b))
            && (r.value == Took <==> HeldNumber(b) > HeldNumber(a))
            && (r.value == Gave <==> HeldNumber(a) > HeldNumber(b))
            && (r.value == Forked <==> HeldNumber(a) == HeldNumber(b) && HeldBytes(a) != HeldBytes(b))
  {
    var (a1, b1) := Moved(a, b, s, t);
    MovedExact(a, b, s, t, now);
    ExchangingIs(digest, a, b, s, t, now);
    TakeForkExact(a1, s, KeptFork(b), now);
    TakeForkExact(b1, t, KeptFork(a), now);
    HeldIs(a);
    HeldIs(b);
  }

  /** A device refuses all that an update, or no update at all, revokes and that has not ended. */
  predicate Refuses(n: Node, update: Bytes, now: nat) {
    Verified(n.rules, update).Some? ==> Denies(n.rules, n.home, Verified(n.rules, update).value, now)
  }

  lemma RefusesStill(was: Node, n: Node, update: Bytes, now: nat)
    requires Refuses(was, update, now) && Grown(was, n)
    ensures Refuses(n, update, now)
  {}

  lemma SoundRefuses(n: Node, now: nat)
    requires Sound(n, now)
    ensures Refuses(n, HeldBytes(n), now) && Refuses(n, KeptFork(n), now)
  {}

  /** Once the updates have moved, each side refuses what either update at the higher number revokes. */
  lemma MovedRefuse(a: Node, b: Node, s: Turn, t: Turn, now: nat)
    requires SamePin(a.rules, b.rules) && Sound(a, now) && Sound(b, now) && s.now <= now && t.now <= now
    ensures var (a1, b1) := Moved(a, b, s, t);
            && (HeldNumber(a) >= HeldNumber(b) ==> Refuses(a1, HeldBytes(a), now) && Refuses(b1, HeldBytes(a), now))
            && (HeldNumber(b) >= HeldNumber(a) ==> Refuses(a1, HeldBytes(b), now) && Refuses(b1, HeldBytes(b), now))
  {
    var (a1, b1) := Moved(a, b, s, t);
    MovedExact(a, b, s, t, now);
    SoundRefuses(a1, now);
    SoundRefuses(b1, now);
    HeldIs(a);
    HeldIs(b);
    if HeldNumber(a) == HeldNumber(b) && HeldBytes(a) != HeldBytes(b) {
      FoldHereExact(a, s, HeldBytes(b), now);
      FoldHereExact(b, t, HeldBytes(a), now);
    }
  }

  /** An update one of them holds, at the higher of their numbers. */
  predicate Newest(a: Node, b: Node, x: Bytes) {
    || (x == HeldBytes(a) && HeldNumber(a) >= HeldNumber(b))
    || (x == HeldBytes(b) && HeldNumber(b) >= HeldNumber(a))
  }

  /** After an exchange both sides refuse all that the newest update either held revokes, two at one number
      included. */
  lemma BothRefuse(digest: Bytes -> Bytes, a: Node, b: Node, s: Turn, t: Turn, now: nat)
    requires SamePin(a.rules, b.rules) && Tells(digest, {HeldBytes(a), HeldBytes(b)})
    requires Sound(a, now) && Sound(b, now) && s.now <= now && t.now <= now
    ensures var (a', b', _) := Exchanging(digest, a, b, s, t);
            forall x :: Newest(a, b, x) ==> Refuses(a', x, now) && Refuses(b', x, now)
  {
    var (a1, b1) := Moved(a, b, s, t);
    var (a', b', _) := Exchanging(digest, a, b, s, t);
    MovedExact(a, b, s, t, now);
    MovedRefuse(a, b, s, t, now);
    ExchangingIs(digest, a, b, s, t, now);
    TakeForkExact(a1, s, KeptFork(b), now);
    TakeForkExact(b1, t, KeptFork(a), now);
    forall x | Newest(a, b, x) ensures Refuses(a', x, now) && Refuses(b', x, now) {
      RefusesStill(a1, a', x, now);
      RefusesStill(b1, b', x, now);
    }
  }

  /** A side that took the other's fork, or had it already, refuses all it revokes. */
  lemma ForkPassed(n: Node, t: Turn, fork: Bytes, now: nat)
    requires Sound(n, now) && t.now <= now
    requires fork != [] ==> |fork| <= MAX_ROSTER_BLOB && Verified(n.rules, fork).Some?
    ensures var m := TakeFork(n, t, fork);
            && Sound(m, now) && Grown(n, m) && HeldBytes(m) == HeldBytes(n)
            && (Agrees(m, fork, t.now, now) ==> Refuses(m, fork, now))
  {
    TakeForkExact(n, t, fork, now);
    assert Verified(n.rules, []).None?;
  }

  /** And, once either holds an update, all that the fork either kept revokes, where the update now held agrees
      with it on when an id ends. */
  lemma BothRefuseForks(digest: Bytes -> Bytes, a: Node, b: Node, s: Turn, t: Turn, now: nat)
    requires SamePin(a.rules, b.rules) && Tells(digest, {HeldBytes(a), HeldBytes(b)})
    requires Sound(a, now) && Sound(b, now) && s.now <= now && t.now <= now
    requires HeldBytes(a) != [] || HeldBytes(b) != []
    ensures var (a', b', _) := Exchanging(digest, a, b, s, t);
            && Refuses(a', KeptFork(a), now) && Refuses(b', KeptFork(b), now)
            && (Agrees(a', KeptFork(b), s.now, now) ==> Refuses(a', KeptFork(b), now))
            && (Agrees(b', KeptFork(a), t.now, now) ==> Refuses(b', KeptFork(a), now))
  {
    var (a1, b1) := Moved(a, b, s, t);
    MovedExact(a, b, s, t, now);
    ExchangingIs(digest, a, b, s, t, now);
    HeldIs(a);
    HeldIs(b);
    ForkPassed(a1, s, KeptFork(b), now);
    ForkPassed(b1, t, KeptFork(a), now);
    var (a', b', _) := Exchanging(digest, a, b, s, t);
    SoundRefuses(a, now);
    SoundRefuses(b, now);
    RefusesStill(a, a', KeptFork(a), now);
    RefusesStill(b, b', KeptFork(b), now);
  }

  // --- a list spreading among devices ---

  datatype Meeting = Meeting(dialer: nat, server: nat, here: Turn, there: Turn)

  /** A meeting of two of `n` devices. */
  predicate Apart(n: nat, m: Meeting) { m.dialer < n && m.server < n && m.dialer != m.server }

  function Meet(digest: Bytes -> Bytes, net: seq<Node>, m: Meeting): (r: seq<Node>)
    requires Apart(|net|, m)
    ensures |r| == |net|
  {
    var (a, b, _) := Exchanging(digest, net[m.dialer], net[m.server], m.here, m.there);
    net[m.dialer := a][m.server := b]
  }

  function NetAfter(digest: Bytes -> Bytes, net: seq<Node>, ms: seq<Meeting>): (r: seq<Node>)
    requires forall i :: 0 <= i < |ms| ==> Apart(|net|, ms[i])
    ensures |r| == |net|
    decreases |ms|
  {
    if ms == [] then net else NetAfter(digest, Meet(digest, net, ms[0]), ms[1..])
  }

  /** The devices a chain of meetings leads to from some of them. */
  function Reached(ms: seq<Meeting>, from: set<nat>): set<nat>
    decreases |ms|
  {
    if ms == [] then from
    else
      var met := {ms[0].dialer, ms[0].server};
      Reached(ms[1..], if ms[0].dialer in from || ms[0].server in from then from + met else from)
  }

  /** Devices of one root, sound, whose updates the digest tells apart. */
  ghost predicate Fleet(digest: Bytes -> Bytes, net: seq<Node>, known: set<Bytes>, now: nat) {
    && Tells(digest, known)
    && (forall i :: 0 <= i < |net| ==> Sound(net[i], now) && HeldBytes(net[i]) in known)
    && (forall i, j :: 0 <= i < |net| && 0 <= j < |net| ==> SamePin(net[i].rules, net[j].rules))
  }

  lemma FleetSwapped(digest: Bytes -> Bytes, net: seq<Node>, net': seq<Node>, known: set<Bytes>, now: nat)
    requires Fleet(digest, net, known, now) && |net'| == |net|
    requires forall i :: 0 <= i < |net| ==>
               net'[i].rules == net[i].rules && Sound(net'[i], now) && HeldBytes(net'[i]) in known
    ensures Fleet(digest, net', known, now)
  {}

  lemma MeetKeeps(digest: Bytes -> Bytes, net: seq<Node>, m: Meeting, known: set<Bytes>, now: nat)
    requires Apart(|net|, m) && Fleet(digest, net, known, now) && m.here.now <= now && m.there.now <= now
    ensures var net' := Meet(digest, net, m);
            && Fleet(digest, net', known, now)
            && (forall i :: 0 <= i < |net| ==> HeldNumber(net'[i]) >= HeldNumber(net[i]) && Grown(net[i], net'[i]))
            && HeldNumber(net'[m.dialer]) == HeldNumber(net'[m.server])
  {
    Converges(digest, net[m.dialer], net[m.server], m.here, m.there, now);
    FleetSwapped(digest, net, Meet(digest, net, m), known, now);
  }

  /** Over any sequence of exchanges among the devices of a root, forked or not: no device's number falls,
      nothing a device refuses is admitted again, and each refuses all that its own update and fork revoke. */
  lemma {:induction false} AfterKeeps(
    digest: Bytes -> Bytes, net: seq<Node>, ms: seq<Meeting>, known: set<Bytes>, now: nat)
    requires Fleet(digest, net, known, now)
    requires forall i :: 0 <= i < |ms| ==> Apart(|net|, ms[i]) && ms[i].here.now <= now && ms[i].there.now <= now
    ensures Fleet(digest, NetAfter(digest, net, ms), known, now)
    ensures forall i :: 0 <= i < |net| ==>
              && HeldNumber(NetAfter(digest, net, ms)[i]) >= HeldNumber(net[i])
              && Grown(net[i], NetAfter(digest, net, ms)[i])
    decreases |ms|
  {
    if ms != [] {
      assert Apart(|net|, ms[0]);
      MeetKeeps(digest, net, ms[0], known, now);
      AfterKeeps(digest, Meet(digest, net, ms[0]), ms[1..], known, now);
    }
  }

  /** An update reaches every device that a chain of exchanges leads to from one that holds it: each ends with
      its number or a higher one. */
  lemma {:induction false} Spreads(
    digest: Bytes -> Bytes, net: seq<Node>, ms: seq<Meeting>, from: set<nat>, number: nat, known: set<Bytes>, now: nat)
    requires Fleet(digest, net, known, now)
    requires forall i :: 0 <= i < |ms| ==> Apart(|net|, ms[i]) && ms[i].here.now <= now && ms[i].there.now <= now
    requires forall i :: i in from ==> i < |net| && HeldNumber(net[i]) >= number
    ensures forall i :: i in Reached(ms, from) ==> i < |net| && HeldNumber(NetAfter(digest, net, ms)[i]) >= number
    decreases |ms|
  {
    if ms != [] {
      var m := ms[0];
      assert Apart(|net|, m);
      MeetKeeps(digest, net, m, known, now);
      var reached := if m.dialer in from || m.server in from then from + {m.dialer, m.server} else from;
      Spreads(digest, Meet(digest, net, m), ms[1..], reached, number, known, now);
    }
  }

  /** No other update known has this one's number, or a higher one: the root was never copied, and cut none since. */
  ghost predicate Last(r: Rules, update: Bytes, known: set<Bytes>) {
    && Verified(r, update).Some?
    && forall x :: x in known && x != update && Verified(r, x).Some? ==>
         Verified(r, x).value.epoch < Verified(r, update).value.epoch
  }

  /** And then the update itself arrives: each of those devices ends with its very bytes. */
  lemma SpreadsWhole(
    digest: Bytes -> Bytes, net: seq<Node>, ms: seq<Meeting>, from: set<nat>, update: Bytes, known: set<Bytes>,
    now: nat)
    requires Fleet(digest, net, known, now)
    requires forall i :: 0 <= i < |ms| ==> Apart(|net|, ms[i]) && ms[i].here.now <= now && ms[i].there.now <= now
    requires forall i :: i in from ==> i < |net| && HeldBytes(net[i]) == update && Last(net[i].rules, update, known)
    ensures forall i :: i in Reached(ms, from) ==> i < |net| && HeldBytes(NetAfter(digest, net, ms)[i]) == update
  {
    if start :| start in from {
      var number := Verified(net[start].rules, update).value.epoch;
      forall i | i in from ensures HeldNumber(net[i]) >= number { HeldIs(net[i]); }
      Spreads(digest, net, ms, from, number, known, now);
      AfterKeeps(digest, net, ms, known, now);
      forall i | i in Reached(ms, from) ensures HeldBytes(NetAfter(digest, net, ms)[i]) == update {
        HeldIs(NetAfter(digest, net, ms)[i]);
        HeldIs(net[start]);
      }
    } else {
      NoneReached(ms, from);
    }
  }

  lemma {:induction false} NoneReached(ms: seq<Meeting>, from: set<nat>)
    requires from == {}
    ensures Reached(ms, from) == {}
    decreases |ms|
  {
    if ms != [] { NoneReached(ms[1..], from); }
  }
}
