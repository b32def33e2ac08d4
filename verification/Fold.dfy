/** The fold: how an update reaches a device's files, whoever carried it. It takes only a newer update, and it
    only ever adds to what the device refuses. */
module Fold {
  import opened Wrappers
  import opened Order
  import opened Codec
  import opened Roster

  /** What is fixed on one device: the update each blob is under the pinned root, the device's own key, and of a
      standing, whether it is bound to that key under the pin at a time, and the id it is revoked by. */
  datatype Rules = Rules(
    update: Bytes -> Option<Doc>, own: Option<Bytes>, bound: (Bytes, nat) -> bool, idOf: Bytes -> Option<Bytes>)

  /** The files a fold reads and writes: the update held, the fork kept beside it, the keys and ids refused, and
      the device's standing. */
  datatype Home = Home(
    devices: Option<Bytes>, conflict: Option<Bytes>, keys: set<Bytes>, ids: set<Bytes>, badge: Option<Bytes>)

  /** Whether each list that is there can be read just now. */
  datatype Access = Access(devices: bool, conflict: bool)

  datatype Folded = NotNewer | Same | Fork(floor: u64) | Newer
  datatype FoldError = NotADevice | Oversize | NotVerified | Failed

  /** What a blob is under a pin, `opens` being which blobs its root signed and what they carry. */
  function Opened(f: Foreign, opens: Bytes -> Option<Bytes>, b: Bytes): Option<Doc> {
    match opens(b)
    case None => None
    case Some(payload) => match Parse(f, payload) case Ok(d) => Some(d) case Err(_) => None
  }

  /** The updates are those a root signed, parsed. What a fold keeps it keeps whatever they are. */
  ghost predicate Signed(r: Rules, f: Foreign, opens: Bytes -> Option<Bytes>) {
    forall b :: r.update(b) == Opened(f, opens, b)
  }

  /** `verify`: no bytes are no update. */
  function Verified(r: Rules, b: Bytes): Option<Doc> { if b == [] then None else r.update(b) }

  /** `read_held`: no list, unless it reads, fits and verifies. */
  function Held(r: Rules, list: Option<Bytes>, readable: bool): Option<Doc> {
    if list.None? || !readable || |list.value| > MAX_ROSTER_BLOB then None else Verified(r, list.value)
  }

  /** The number of the update held, 0 for none. */
  function Number(r: Rules, h: Home, readable: bool): u64 {
    match Held(r, h.devices, readable) case Some(d) => d.epoch case None => 0
  }

  // --- what an update refuses ---

  /** The keys an update revokes, as this device writes them: never its own. */
  function RevokedKeys(r: Rules, d: Doc): set<Bytes> {
    set x | x in d.revokedDevices && r.own != Some(x.node) :: x.node
  }

  function RevokedIds(d: Doc, now: nat): set<Bytes> { set x | x in d.revoked && x.expires > now :: x.id }

  /** The device refuses all that the update revokes and that has not ended. */
  predicate Denies(r: Rules, h: Home, d: Doc, now: nat) {
    RevokedKeys(r, d) <= h.keys && RevokedIds(d, now) <= h.ids
  }

  function Revoking(r: Rules, h: Home, d: Doc, now: nat): Home {
    h.(keys := h.keys + RevokedKeys(r, d), ids := h.ids + RevokedIds(d, now))
  }

  predicate ListsId(d: Doc, id: Bytes) { exists i :: 0 <= i < |d.revoked| && d.revoked[i].id == id }
  predicate ListsKey(d: Doc, node: Bytes) {
    exists i :: 0 <= i < |d.revokedDevices| && d.revokedDevices[i].node == node
  }

  lemma ListsIdIs(d: Doc, id: Bytes)
    ensures ListsId(d, id) <==> exists x :: x in d.revoked && x.id == id
  {
    if x :| x in d.revoked && x.id == id { var i :| 0 <= i < |d.revoked| && d.revoked[i] == x; }
  }

  lemma ListsKeyIs(d: Doc, node: Bytes)
    ensures ListsKey(d, node) <==> exists x :: x in d.revokedDevices && x.node == node
  {
    if x :| x in d.revokedDevices && x.node == node {
      var i :| 0 <= i < |d.revokedDevices| && d.revokedDevices[i] == x;
    }
  }

  /** `carries`: the fork's keys and its ids still to end are all in the update. */
  predicate Carries(d: Doc, fork: Doc, now: nat) {
    && (forall x :: x in fork.revoked && x.expires > now ==> ListsId(d, x.id))
    && (forall x :: x in fork.revokedDevices ==> ListsKey(d, x.node))
  }

  // --- the fold, every write going through ---

  function RowOf(members: seq<Member>, node: Bytes): Option<Member> {
    if members == [] then None else if members[0].node == node then Some(members[0]) else RowOf(members[1..], node)
  }

  lemma {:induction false} RowFirst(ms: seq<Member>, node: Bytes)
    ensures RowOf(ms, node).Some? <==> exists i :: 0 <= i < |ms| && ms[i].node == node
    ensures RowOf(ms, node).Some? ==> RowOf(ms, node).value in ms && RowOf(ms, node).value.node == node
  {
    if ms != [] && ms[0].node != node {
      RowFirst(ms[1..], node);
      if i :| 0 <= i < |ms| && ms[i].node == node { assert ms[1..][i - 1].node == node; }
      if i :| 0 <= i < |ms[1..]| && ms[1..][i].node == node { assert ms[i + 1].node == node; }
    }
  }

  /** In a well-formed document a key has at most one row. */
  lemma OneRow(f: Foreign, d: Doc, m: Member)
    requires ValidDoc(f, d) && m in d.members
    ensures RowOf(d.members, m.node) == Some(m)
  {
    RowFirst(d.members, m.node);
    var i :| 0 <= i < |d.members| && d.members[i] == m;
    var row := RowOf(d.members, m.node).value;
    var j :| 0 <= j < |d.members| && d.members[j] == row;
    StrictFromIsStrict(None, d.members, MemberKey);
    if i < j { StrictPair(d.members, MemberKey, i, j); }
    if j < i { StrictPair(d.members, MemberKey, j, i); }
  }

  /** The standing an update gives this device, when it is one to take. */
  function Renewal(r: Rules, d: Doc, until: nat, now: nat): Option<Bytes> {
    var row := if r.own.Some? then RowOf(d.members, r.own.value) else None;
    if row.None? then None
    else
      var standing := row.value.standing;
      var revoked := ListsKey(d, r.own.value) || (r.idOf(standing).Some? && ListsId(d, r.idOf(standing).value));
      if r.bound(standing, now) && row.value.until > until && !revoked then Some(standing) else None
  }

  function PickedUp(r: Rules, h: Home, d: Doc, until: nat, now: nat): Home {
    match Renewal(r, d, until, now) case Some(s) => h.(badge := Some(s)) case None => h
  }

  function KeepFork(r: Rules, h: Home, bytes: Bytes, look: Access): Home {
    if Held(r, h.conflict, look.conflict).None? then h.(conflict := Some(bytes)) else h
  }

  function ClearFork(r: Rules, h: Home, d: Doc, now: nat, look: Access): Home {
    match Held(r, h.conflict, look.conflict)
    case Some(fork) => if Carries(d, fork, now) then h.(conflict := None) else h
    case None => h
  }

  /** A newer update taken, every write going through. */
  function WithNewer(r: Rules, h: Home, bytes: Bytes, d: Doc, until: nat, now: nat, look: Access): Home {
    ClearFork(r, PickedUp(r, Revoking(r, h, d, now), d, until, now).(devices := Some(bytes)), d, now, look)
  }

  /** `fold` of an update that verifies, on a device whose standing runs until `until`. */
  function Folding(r: Rules, h: Home, bytes: Bytes, d: Doc, until: nat, now: nat, look: Access): (Home, Folded) {
    var floor := Number(r, h, look.devices);
    if d.epoch < floor then (h, NotNewer)
    else if d.epoch == floor then
      if Held(r, h.devices, look.devices).None? then (h, NotNewer)
      else if h.devices == Some(bytes) then (h, Same)
      else (KeepFork(r, Revoking(r, h, d, now), bytes, look), Fork(floor))
    else (WithNewer(r, h, bytes, d, until, now, look), Newer)
  }

  /** `fold_fork` of a fork that verifies. */
  function FoldingFork(r: Rules, h: Home, bytes: Bytes, fork: Doc, now: nat, look: Access): Home {
    var held := Held(r, h.devices, look.devices);
    if held.Some? && (h.devices == Some(bytes) || Carries(held.value, fork, now)) then h
    else KeepFork(r, Revoking(r, h, fork, now), bytes, look)
  }

  // --- what may happen to a home, any write failing and the machine stopping anywhere ---

  datatype Event =
    | Folds(bytes: Bytes, until: nat, now: nat, look: Access)
    | Forks(bytes: Bytes, now: nat, look: Access)
    | Denied                                              // another act adds revocations
    | ListsGone                                           // a join or a leave removes the lists

  /** A state a fold of `d` passes through: what it revokes is refused first, before any list names it; the
      update held gives way only to one above the floor, the standing only to one it gives; a fork kept gives way
      only once it is carried. */
  predicate Between(r: Rules, was: Home, h: Home, bytes: Bytes, d: Doc, until: nat, now: nat, look: Access) {
    && was.keys <= h.keys <= was.keys + RevokedKeys(r, d) && was.ids <= h.ids <= was.ids + RevokedIds(d, now)
    && (h.devices != was.devices ==>
          h.devices == Some(bytes) && d.epoch > Number(r, was, look.devices) && Denies(r, h, d, now))
    && (h.badge != was.badge ==> h.badge.Some? && h.badge == Renewal(r, d, until, now) && Denies(r, h, d, now))
    && (h.conflict != was.conflict ==>
          && Denies(r, h, d, now)
          && match Held(r, was.conflict, look.conflict)
             case None => h.conflict == Some(bytes)
             case Some(fork) => h.conflict.None? && h.devices == Some(bytes) && Carries(d, fork, now))
  }

  /** A state that adds to what is refused, and may keep the fork. */
  predicate Recording(r: Rules, was: Home, h: Home, bytes: Bytes, d: Doc, now: nat, look: Access) {
    Between(r, was, h, bytes, d, 0, now, look) && h.devices == was.devices && h.badge == was.badge
  }

  predicate Moves(r: Rules, was: Home, h: Home, e: Event) {
    match e
    case Folds(bytes, until, now, look) =>
      h == was || (|bytes| <= MAX_ROSTER_BLOB && Verified(r, bytes).Some?
                   && Between(r, was, h, bytes, Verified(r, bytes).value, until, now, look))
    case Forks(bytes, now, look) =>
      h == was || (|bytes| <= MAX_ROSTER_BLOB && Verified(r, bytes).Some?
                   && Recording(r, was, h, bytes, Verified(r, bytes).value, now, look))
    case Denied => was.keys <= h.keys && was.ids <= h.ids && h == was.(keys := h.keys, ids := h.ids)
    case ListsGone =>
      && h == was.(devices := h.devices, conflict := h.conflict)
      && (h.devices == was.devices || h.devices.None?) && (h.conflict == was.conflict || h.conflict.None?)
  }

  lemma KeepingForkRecords(r: Rules, h: Home, bytes: Bytes, d: Doc, now: nat, look: Access)
    ensures Recording(r, h, Revoking(r, h, d, now), bytes, d, now, look)
    ensures Recording(r, h, KeepFork(r, Revoking(r, h, d, now), bytes, look), bytes, d, now, look)
  {}

  /** A state with the revocations added, the standing the old or the one given, the list the old or the new. */
  predicate Step(r: Rules, h: Home, s: Home, bytes: Bytes, d: Doc, until: nat, now: nat) {
    && s.keys == h.keys + RevokedKeys(r, d) && s.ids == h.ids + RevokedIds(d, now) && s.conflict == h.conflict
    && (s.badge == h.badge || (s.badge.Some? && s.badge == Renewal(r, d, until, now)))
    && (s.devices == h.devices || s.devices == Some(bytes))
  }

  lemma StepPasses(r: Rules, h: Home, s: Home, bytes: Bytes, d: Doc, until: nat, now: nat, look: Access)
    requires d.epoch > Number(r, h, look.devices) && Step(r, h, s, bytes, d, until, now)
    ensures Between(r, h, s, bytes, d, until, now, look)
  {}

  lemma ClearingPasses(r: Rules, h: Home, s: Home, bytes: Bytes, d: Doc, until: nat, now: nat, look: Access)
    requires d.epoch > Number(r, h, look.devices) && Step(r, h, s, bytes, d, until, now) && s.devices == Some(bytes)
    ensures Between(r, h, ClearFork(r, s, d, now, look), bytes, d, until, now, look)
  {}

  class Device {
    const rules: Rules
    var home: Home
    ghost var seen: seq<Home>

    constructor (r: Rules, h: Home)
      ensures rules == r && home == h && seen == []
    {
      rules, home, seen := r, h, [];
    }

    /** One atomic write: it fails before or after it takes. */
    method Write(next: Home) returns (ok: bool)
      modifies this
      ensures ok ==> home == next
      ensures home == old(home) || home == next
      ensures seen == old(seen) || seen == old(seen) + [next]
    {
      if * { return false; }
      home, seen := next, seen + [next];
      if * { return false; }
      return true;
    }

    /** The revocations of a fork added, and the fork kept. */
    method RecordFork(bytes: Bytes, d: Doc, now: nat, look: Access) returns (ok: bool)
      modifies this
      ensures old(seen) <= seen
      ensures ok ==> home == KeepFork(rules, Revoking(rules, old(home), d, now), bytes, look)
      ensures home == old(home) || Recording(rules, old(home), home, bytes, d, now, look)
      ensures forall i :: |old(seen)| <= i < |seen| ==> Recording(rules, old(home), seen[i], bytes, d, now, look)
    {
      KeepingForkRecords(rules, home, bytes, d, now, look);
      ok := Write(Revoking(rules, home, d, now));
      if ok { ok := Write(KeepFork(rules, home, bytes, look)); }
    }

    /** What a newer update brings before it is held: its revocations, and the standing it gives. */
    method Renew(bytes: Bytes, d: Doc, until: nat, now: nat, look: Access) returns (ok: bool)
      requires d.epoch > Number(rules, home, look.devices)
      modifies this
      ensures old(seen) <= seen
      ensures ok ==> home == PickedUp(rules, Revoking(rules, old(home), d, now), d, until, now)
      ensures home == old(home) || Between(rules, old(home), home, bytes, d, until, now, look)
      ensures forall i :: |old(seen)| <= i < |seen| ==> Between(rules, old(home), seen[i], bytes, d, until, now, look)
    {
      ghost var was := home;
      var next := Revoking(rules, home, d, now);
      StepPasses(rules, was, next, bytes, d, until, now, look);
      ok := Write(next);
      if ok && Renewal(rules, d, until, now).Some? {
        next := PickedUp(rules, home, d, until, now);
        StepPasses(rules, was, next, bytes, d, until, now, look);
        ok := Write(next);
      }
    }

    /** A newer update taken: what it brings, the update itself, and the fork it carries let go. */
    method TakeNewer(bytes: Bytes, d: Doc, until: nat, now: nat, look: Access) returns (ok: bool)
      requires d.epoch > Number(rules, home, look.devices)
      modifies this
      ensures old(seen) <= seen
      ensures ok ==> home == WithNewer(rules, old(home), bytes, d, until, now, look)
      ensures home == old(home) || Between(rules, old(home), home, bytes, d, until, now, look)
      ensures forall i :: |old(seen)| <= i < |seen| ==> Between(rules, old(home), seen[i], bytes, d, until, now, look)
    {
      ghost var was := home;
      ok := Renew(bytes, d, until, now, look);
      if !ok { return; }
      var next := home.(devices := Some(bytes));
      StepPasses(rules, was, next, bytes, d, until, now, look);
      ok := Write(next);
      if !ok { return; }
      ClearingPasses(rules, was, next, bytes, d, until, now, look);
      ok := Write(ClearFork(rules, home, d, now, look));
    }

    /** The comparison with the update held, of an update that verifies. */
    method FoldVerified(bytes: Bytes, d: Doc, until: nat, now: nat, look: Access) returns (r: Result<Folded, FoldError>)
      modifies this
      ensures old(seen) <= seen
      ensures r.Ok? ==> (home, r.value) == Folding(rules, old(home), bytes, d, until, now, look)
      ensures home == old(home) || Between(rules, old(home), home, bytes, d, until, now, look)
      ensures forall i :: |old(seen)| <= i < |seen| ==> Between(rules, old(home), seen[i], bytes, d, until, now, look)
    {
      var held := Held(rules, home.devices, look.devices);
      var floor := if held.Some? then held.value.epoch else 0;
      if d.epoch < floor { return Ok(NotNewer); }
      if d.epoch == floor {
        if held.None? { return Ok(NotNewer); }
        if home.devices == Some(bytes) { return Ok(Same); }
        var ok := RecordFork(bytes, d, now, look);
        return if ok then Ok(Fork(floor)) else Err(Failed);
      }
      var ok := TakeNewer(bytes, d, until, now, look);
      return if ok then Ok(Newer) else Err(Failed);
    }

    /** `fold`; `until` is when this machine's standing ends, if it is a device of the root. */
    method Fold(bytes: Bytes, until: Option<nat>, now: nat, look: Access) returns (r: Result<Folded, FoldError>)
      modifies this
      ensures old(seen) <= seen
      ensures until.None? || |bytes| > MAX_ROSTER_BLOB || Verified(rules, bytes).None? ==> r.Err? && home == old(home)
      ensures r.Ok? ==>
                (home, r.value)
                == Folding(rules, old(home), bytes, Verified(rules, bytes).value, until.value, now, look)
      ensures until.Some? ==> Moves(rules, old(home), home, Folds(bytes, until.value, now, look))
      ensures until.Some? ==>
                forall i :: |old(seen)| <= i < |seen| ==>
                  Moves(rules, old(home), seen[i], Folds(bytes, until.value, now, look))
    {
      if until.None? { return Err(NotADevice); }
      if |bytes| > MAX_ROSTER_BLOB { return Err(Oversize); }
      var doc := Verified(rules, bytes);
      if doc.None? { return Err(NotVerified); }
      r := FoldVerified(bytes, doc.value, until.value, now, look);
    }

    /** `fold_fork`; `member` is whether any root has this machine. */
    method FoldFork(bytes: Bytes, member: bool, now: nat, look: Access) returns (r: Result<(), FoldError>)
      modifies this
      ensures old(seen) <= seen
      ensures !member || |bytes| > MAX_ROSTER_BLOB || Verified(rules, bytes).None? ==> r.Err? && home == old(home)
      ensures r.Ok? ==> home == FoldingFork(rules, old(home), bytes, Verified(rules, bytes).value, now, look)
      ensures Moves(rules, old(home), home, Forks(bytes, now, look))
      ensures forall i :: |old(seen)| <= i < |seen| ==> Moves(rules, old(home), seen[i], Forks(bytes, now, look))
    {
      if !member { return Err(NotADevice); }
      if |bytes| > MAX_ROSTER_BLOB { return Err(Oversize); }
      var fork := Verified(rules, bytes);
      if fork.None? { return Err(NotVerified); }
      var held := Held(rules, home.devices, look.devices);
      if held.Some? && (home.devices == Some(bytes) || Carries(held.value, fork.value, now)) { return Ok(()); }
      var ok := RecordFork(bytes, fork.value, now, look);
      return if ok then Ok(()) else Err(Failed);
    }
  }

  // --- over every run ---

  /** The home refuses all that the update it holds and the fork it keeps revoke and that has not ended, and no
      update numbered 0 is held. */
  predicate Upheld(r: Rules, h: Home, now: nat) {
    && (match Held(r, h.devices, true) case Some(d) => d.epoch > 0 && Denies(r, h, d, now) case None => true)
    && (match Held(r, h.conflict, true) case Some(fork) => Denies(r, h, fork, now) case None => true)
  }

  predicate Before(e: Event, now: nat) { (e.Folds? || e.Forks?) ==> e.now <= now }

  /** The number can fall only when the lists are removed, or the update held could not be read. */
  predicate KeepsNumber(e: Event) { !e.ListsGone? && (e.Folds? ==> e.look.devices) }

  /** What is refused stays refused, by more homes and at later times. */
  lemma DeniesStill(r: Rules, h: Home, h': Home, d: Doc, now: nat, later: nat)
    requires Denies(r, h, d, now) && h.keys <= h'.keys && h.ids <= h'.ids && now <= later
    ensures Denies(r, h', d, later)
  {}

  lemma MoveUpholds(r: Rules, was: Home, h: Home, e: Event, now: nat)
    requires Upheld(r, was, now) && Moves(r, was, h, e) && Before(e, now)
    ensures Upheld(r, h, now) && was.keys <= h.keys && was.ids <= h.ids
    ensures KeepsNumber(e) ==> Number(r, was, true) <= Number(r, h, true)
  {
    if h != was && (e.Folds? || e.Forks?) {
      var d := Verified(r, e.bytes).value;
      if Denies(r, h, d, e.now) { DeniesStill(r, h, h, d, e.now, now); }
      assert Held(r, Some(e.bytes), true) == Some(d);
    }
  }

  /** A run of a home: each state follows from the one before by one event, cut short anywhere. */
  predicate Run(r: Rules, states: seq<Home>, events: seq<Event>) {
    && |states| == |events| + 1
    && forall i :: 0 <= i < |events| ==> Moves(r, states[i], states[i + 1], events[i])
  }

  /** Over any run of folds, forks, other revocations and removals, each stopped anywhere: what the update held
      and the fork kept revoke is refused at every moment, nothing refused is ever admitted again, and the
      number of the update held never falls. */
  lemma {:induction false} RunUpholds(r: Rules, states: seq<Home>, events: seq<Event>, now: nat)
    requires Run(r, states, events) && Upheld(r, states[0], now)
    requires forall i :: 0 <= i < |events| ==> Before(events[i], now)
    ensures var last := states[|states| - 1];
            && Upheld(r, last, now)
            && states[0].keys <= last.keys && states[0].ids <= last.ids
            && ((forall i :: 0 <= i < |events| ==> KeepsNumber(events[i])) ==>
                  Number(r, states[0], true) <= Number(r, last, true))
    decreases |events|
  {
    if events != [] {
      var n := |events| - 1;
      RunUpholds(r, states[..n + 1], events[..n], now);
      MoveUpholds(r, states[n], states[n + 1], events[n], now);
    }
  }

  /** A fold whose every write goes through is one such move. */
  lemma FoldingMoves(r: Rules, h: Home, bytes: Bytes, d: Doc, until: nat, now: nat, look: Access)
    requires |bytes| <= MAX_ROSTER_BLOB && Verified(r, bytes) == Some(d)
    ensures Moves(r, h, Folding(r, h, bytes, d, until, now, look).0, Folds(bytes, until, now, look))
  {
    var floor := Number(r, h, look.devices);
    if d.epoch == floor {
      KeepingForkRecords(r, h, bytes, d, now, look);
    } else if d.epoch > floor {
      var next := PickedUp(r, Revoking(r, h, d, now), d, until, now).(devices := Some(bytes));
      ClearingPasses(r, h, next, bytes, d, until, now, look);
    }
  }

  lemma FoldingForkMoves(r: Rules, h: Home, bytes: Bytes, fork: Doc, now: nat, look: Access)
    requires |bytes| <= MAX_ROSTER_BLOB && Verified(r, bytes) == Some(fork)
    ensures Moves(r, h, FoldingFork(r, h, bytes, fork, now, look), Forks(bytes, now, look))
  {
    KeepingForkRecords(r, h, bytes, fork, now, look);
  }

  /** When an update is taken, exactly: its number passes that of the update held, or 0 when that one cannot be
      read, and then it is the one held, whatever was. */
  lemma NewerExact(r: Rules, h: Home, bytes: Bytes, d: Doc, until: nat, now: nat, look: Access)
    requires |bytes| <= MAX_ROSTER_BLOB && Verified(r, bytes) == Some(d)
    ensures var (h', said) := Folding(r, h, bytes, d, until, now, look);
            && (said == Newer <==> d.epoch > if look.devices then Number(r, h, true) else 0)
            && (said == Newer ==> Number(r, h', true) == d.epoch)
            && (said != Newer ==> h'.devices == h.devices && h'.badge == h.badge)
            && (said == Newer || said.Fork? ==> Denies(r, h', d, now))
  {}

  /** The guard is needed: an update held that cannot be read just now gives way to any other, an older one
      included. */
  lemma UnreadFalls(r: Rules, h: Home, bytes: Bytes, d: Doc, until: nat, now: nat)
    requires |bytes| <= MAX_ROSTER_BLOB && Verified(r, bytes) == Some(d)
    requires 0 < d.epoch < Number(r, h, true)
    ensures Number(r, Folding(r, h, bytes, d, until, now, Access(false, true)).0, true) < Number(r, h, true)
    ensures Folding(r, h, bytes, d, until, now, Access(true, true)).0 == h
  {}

  /** Each id of the fork that has not ended stands in the update with an end of its own still to come. */
  predicate Outlasts(d: Doc, fork: Doc, now: nat) {
    forall x :: x in fork.revoked && x.expires > now ==>
      exists y :: y in d.revoked && y.id == x.id && y.expires > now
  }

  /** A fork the update held carries is refused with it, on every home that refuses that update, exactly when the
      update lists none of its ids as ending sooner than now. */
  lemma CarriedIsDenied(r: Rules, d: Doc, fork: Doc, now: nat, later: nat)
    requires Carries(d, fork, now) && now <= later
    ensures (forall h: Home :: Denies(r, h, d, later) ==> Denies(r, h, fork, later)) <==> Outlasts(d, fork, later)
  {
    CarriedKeys(r, d, fork, now);
    if Outlasts(d, fork, later) {
      forall h: Home | Denies(r, h, d, later) ensures Denies(r, h, fork, later) {
        OutlastingIds(d, fork, later);
      }
    }
    if forall h: Home :: Denies(r, h, d, later) ==> Denies(r, h, fork, later) {
      var least := Home(None, None, RevokedKeys(r, d), RevokedIds(d, later), None);
      assert Denies(r, least, d, later) && Denies(r, least, fork, later);
      forall x | x in fork.revoked && x.expires > later
        ensures exists y :: y in d.revoked && y.id == x.id && y.expires > later
      {
        assert x.id in RevokedIds(fork, later);
      }
    }
  }

  lemma CarriedKeys(r: Rules, d: Doc, fork: Doc, now: nat)
    requires Carries(d, fork, now)
    ensures RevokedKeys(r, fork) <= RevokedKeys(r, d)
  {
    forall key | key in RevokedKeys(r, fork) ensures key in RevokedKeys(r, d) {
      var x :| x in fork.revokedDevices && r.own != Some(x.node) && x.node == key;
      assert ListsKey(d, x.node);
      var i :| 0 <= i < |d.revokedDevices| && d.revokedDevices[i].node == x.node;
      assert d.revokedDevices[i] in d.revokedDevices;
    }
  }

  lemma OutlastingIds(d: Doc, fork: Doc, now: nat)
    ensures Outlasts(d, fork, now) ==> RevokedIds(fork, now) <= RevokedIds(d, now)
  {
    if Outlasts(d, fork, now) {
      forall id | id in RevokedIds(fork, now) ensures id in RevokedIds(d, now) {
        var x :| x in fork.revoked && x.expires > now && x.id == id;
        var y :| y in d.revoked && y.id == x.id && y.expires > now;
      }
    }
  }

  /** So it may not be: an id the update held lists as ended counts as carried. */
  lemma CarriedButAdmitted(r: Rules, h: Home)
    requires h.ids == {}
    ensures var d, fork := Doc(2, [], [Id(5, [1])], []), Doc(1, [], [Id(9, [1])], []);
            Denies(r, h, d, 7) && Carries(d, fork, 7) && !Denies(r, h, fork, 7)
  {
    var d, fork := Doc(2, [], [Id(5, [1])], []), Doc(1, [], [Id(9, [1])], []);
    assert ListsId(d, [1]) by { assert d.revoked[0].id == [1]; }
    assert fork.revoked[0] in fork.revoked;
    assert [1] in RevokedIds(fork, 7);
  }
}
