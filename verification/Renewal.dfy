/** The pick-up route: a device takes its newest standing from one of its fellows, only ever a longer one, and
    never another root. */
module Renewal {
  import opened Wrappers
  import opened TrustFiles
  import opened Standing

  /** What this machine refuses: keys, and the ids of links. */
  datatype Refusals = Refusals(keys: set<Key>, ids: set<int>)

  /** A device's home as a renewal reads it; `idsOf` is the ids a link carries. */
  datatype View = View(formats: Formats, idsOf: Content -> set<int>, own: Option<Key>, root: Option<Key>)

  function Files(pin: Option<Content>, cert: Option<Content>): Image {
    n => if n == RootPub then pin else if n == KeyCert then cert else None
  }

  function ReadHome(v: View, refused: Refusals, pin: Option<Content>, cert: Option<Content>): Result<Class, Damage> {
    Read(v.formats, Here(v.own, v.root, refused.keys), Files(pin, cert))
  }

  /** The pin and the end of the standing held, when the home is some root's device. */
  function Member(v: View, refused: Refusals, pin: Option<Content>, cert: Option<Content>): Option<(Key, nat)> {
    match ReadHome(v, refused, pin, cert)
    case Ok(Device(p, until)) => Some((p, until))
    case Ok(HoldsRoot(p, until)) => Some((p, until))
    case _ => None
  }

  /** `verify_member_at_root_without_revocation`: signed by the root, for this key, not ended. */
  predicate BoundTo(b: Badge, now: nat, own: Key, root: Key) {
    b.root == root && b.subject == own && (b.until.Some? ==> now <= b.until.value)
  }

  /** The end a fetched standing brings, where it is one to take: for this key, from the pinned root, longer than the
      one held, and nothing in it refused. */
  function Takes(v: View, refused: Refusals, pin: Option<Content>, cert: Option<Content>, fetched: Content, now: nat)
    : Option<nat>
  {
    var member := Member(v, refused, pin, cert);
    if member.None? || v.own.None? || v.formats.badge(fetched).None? then None
    else
      var b := v.formats.badge(fetched).value;
      if b.until.None? then None
      else if !BoundTo(b, now, v.own.value, member.value.0) || b.until.value <= member.value.1
              || v.idsOf(fetched) * refused.ids != {} || v.own.value in refused.keys
      then None
      else b.until
  }

  class DeviceHome {
    const view: View
    var rootPub: Option<Content>
    var keyCert: Option<Content>

    constructor (v: View, pin: Option<Content>, cert: Option<Content>)
      ensures view == v && rootPub == pin && keyCert == cert
    {
      view, rootPub, keyCert := v, pin, cert;
    }

    /** `take_renewal`: the pin is out of its reach; the standing changes only to one it takes, and then whole,
        whether or not the write reports so. */
    method TakeRenewal(fetched: Content, now: nat, refused: Refusals) returns (r: Result<Option<nat>, ()>)
      modifies this`keyCert
      ensures r.Ok? ==> r.value == Takes(view, refused, rootPub, old(keyCert), fetched, now)
      ensures r.Ok? && r.value.Some? ==> keyCert == Some(fetched)
      ensures r.Ok? && r.value.None? ==> keyCert == old(keyCert)
      ensures keyCert != old(keyCert) ==>
                keyCert == Some(fetched) && Takes(view, refused, rootPub, old(keyCert), fetched, now).Some?
    {
      var standing := ReadHome(view, refused, rootPub, keyCert);
      if standing.Err? { return Err(()); }
      if !standing.value.Device? && !standing.value.HoldsRoot? { return Ok(None); }
      var pin, held := standing.value.pin, standing.value.until;
      if view.own.None? { return Ok(None); }
      var own := view.own.value;
      var badge := view.formats.badge(fetched);
      if badge.None? || badge.value.until.None? { return Ok(None); }
      var until := badge.value.until.value;
      var bound := BoundTo(badge.value, now, own, pin);
      var blocked := view.idsOf(fetched) * refused.ids != {} || own in refused.keys;
      if !bound || until <= held || blocked { return Ok(None); }
      if * { return Err(()); }
      keyCert := Some(fetched);
      if * { return Err(()); }
      return Ok(Some(until));
    }
  }

  /** A taken standing reads back as this machine's, under the same root, until the end it was taken for. */
  lemma TakenReadsBack(
    v: View, refused: Refusals, pin: Option<Content>, cert: Option<Content>, fetched: Content, now: nat)
    requires Takes(v, refused, pin, cert, fetched, now).Some?
    ensures Member(v, refused, pin, Some(fetched)).Some?
    ensures Member(v, refused, pin, Some(fetched)).value.0 == Member(v, refused, pin, cert).value.0
    ensures Member(v, refused, pin, Some(fetched)).value.1 == Takes(v, refused, pin, cert, fetched, now).value
  {}

  /** What is taken, exactly, into a home that pins a root and holds its standing for this machine: a standing the same
      root signed for the same key, not ended, ending later, where neither the key nor any of its ids is refused. */
  lemma TakesExact(
    v: View, refused: Refusals, pin: Content, cert: Content, own: Key, root: Key, held: nat, fetched: Content, now: nat,
    until: nat)
    requires v.own == Some(own) && v.root in {None, Some(root)} && own != root && root !in refused.keys
    requires v.formats.pin(pin) == Some(root) && v.formats.badge(cert) == Some(Badge(root, Some(held), own))
    ensures Takes(v, refused, Some(pin), Some(cert), fetched, now) == Some(until) <==>
              && v.formats.badge(fetched) == Some(Badge(root, Some(until), own)) && now <= until && held < until
              && own !in refused.keys && v.idsOf(fetched) * refused.ids == {}
  {
    assert Member(v, refused, Some(pin), Some(cert)) == Some((root, held));
    assert Member(v, refused, Some(pin), Some(cert)) == Some((root, held));
  }

  /** And only such a home takes any. */
  lemma TakerExact(
    v: View, refused: Refusals, pin: Option<Content>, cert: Option<Content>, fetched: Content, now: nat)
    requires Takes(v, refused, pin, cert, fetched, now).Some?
    ensures pin.Some? && cert.Some? && v.own.Some? && v.formats.pin(pin.value).Some?
    ensures var root := v.formats.pin(pin.value).value;
            && v.root in {None, Some(root)} && v.own != Some(root) && root !in refused.keys
            && exists held :: v.formats.badge(cert.value) == Some(Badge(root, Some(held), v.own.value))
  {
    var b := v.formats.badge(cert.value).value;
    assert b == Badge(b.root, Some(b.until.value), b.subject);
  }

  // --- over any sequence of fetched standings ---

  /** One standing fetched, the clock and the refusals as they then stand, and whether the write held: it took,
      it failed before the rename, or it failed after. */
  datatype Write = Wrote | FailedBefore | FailedAfter
  datatype Fetch = Fetch(fetched: Content, now: nat, refused: Refusals, write: Write)

  function CertAfter(v: View, pin: Option<Content>, cert: Option<Content>, f: Fetch): Option<Content> {
    if Takes(v, f.refused, pin, cert, f.fetched, f.now).Some? && !f.write.FailedBefore? then Some(f.fetched) else cert
  }

  /** The ends of the standings stored, in order. */
  function Ends(v: View, pin: Option<Content>, cert: Option<Content>, fetches: seq<Fetch>): seq<nat>
    decreases |fetches|
  {
    if fetches == [] then []
    else
      var f := fetches[0];
      var took := Takes(v, f.refused, pin, cert, f.fetched, f.now);
      (if took.Some? && !f.write.FailedBefore? then [took.value] else [])
      + Ends(v, pin, CertAfter(v, pin, cert, f), fetches[1..])
  }

  predicate Rising(s: seq<nat>) { forall i :: 0 < i < |s| ==> s[i - 1] < s[i] }

  /** The standing in the home, read with nothing refused: the end it names, whatever is refused since. */
  function EndOf(v: View, cert: Option<Content>): Option<nat> {
    if cert.None? || v.formats.badge(cert.value).None? then None else v.formats.badge(cert.value).value.until
  }

  lemma MemberEnd(v: View, refused: Refusals, pin: Option<Content>, cert: Option<Content>)
    ensures Member(v, refused, pin, cert).Some? ==> EndOf(v, cert) == Some(Member(v, refused, pin, cert).value.1)
  {}

  /** The stored end strictly rises with every standing stored, whatever is fetched, refused or fails. */
  lemma {:induction false} EndsRise(v: View, pin: Option<Content>, cert: Option<Content>, fetches: seq<Fetch>)
    ensures Rising(Ends(v, pin, cert, fetches))
    ensures Ends(v, pin, cert, fetches) != [] && EndOf(v, cert).Some? ==>
              EndOf(v, cert).value < Ends(v, pin, cert, fetches)[0]
    decreases |fetches|
  {
    if fetches != [] {
      var f := fetches[0];
      MemberEnd(v, f.refused, pin, cert);
      EndsRise(v, pin, CertAfter(v, pin, cert, f), fetches[1..]);
      var rest := Ends(v, pin, CertAfter(v, pin, cert, f), fetches[1..]);
      var took := Takes(v, f.refused, pin, cert, f.fetched, f.now);
      if took.Some? && !f.write.FailedBefore? {
        assert EndOf(v, Some(f.fetched)) == took;
        assert forall i :: 0 < i < |[took.value] + rest| ==> ([took.value] + rest)[i] == rest[i - 1];
      } else {
        assert [] + rest == rest;
      }
    }
  }

  // --- asking the others ---

  /** `dialable`: the listed devices in order, without this machine, a refused key, or one already kept. */
  function Dialable(listed: seq<Key>, own: Option<Key>, refused: set<Key>): seq<Key> {
    if listed == [] then []
    else
      var kept := Dialable(listed[..|listed| - 1], own, refused);
      var d := listed[|listed| - 1];
      if own == Some(d) || d in refused || d in kept then kept else kept + [d]
  }

  /** The loop of `dialable`, keeping each device once, in order. */
  method KeepDialable(listed: seq<Key>, own: Option<Key>, refused: set<Key>) returns (out: seq<Key>)
    ensures out == Dialable(listed, own, refused)
  {
    out := [];
    for i := 0 to |listed|
      invariant out == Dialable(listed[..i], own, refused)
    {
      assert listed[..i + 1][..i] == listed[..i];
      var skip := own == Some(listed[i]) || listed[i] in refused || listed[i] in out;
      if !skip { out := out + [listed[i]]; }
    }
    assert listed[..|listed|] == listed;
  }

  lemma {:induction false} DialableOnce(listed: seq<Key>, own: Option<Key>, refused: set<Key>)
    ensures var out := Dialable(listed, own, refused);
            && (forall i, j :: 0 <= i < j < |out| ==> out[i] != out[j])
            && (forall d :: d in out <==> d in listed && own != Some(d) && d !in refused)
  {
    if listed != [] {
      var front, d := listed[..|listed| - 1], listed[|listed| - 1];
      DialableOnce(front, own, refused);
      assert listed == front + [d];
    }
  }

  /** And in the order listed, each where it first stands. */
  lemma {:induction false} DialableInOrder(listed: seq<Key>, own: Option<Key>, refused: set<Key>, i: nat, j: nat)
    requires i < j < |Dialable(listed, own, refused)|
    ensures exists k, l ::
              && 0 <= k < l < |listed| && listed[k] == Dialable(listed, own, refused)[i]
              && listed[l] == Dialable(listed, own, refused)[j] && listed[l] !in listed[..l]
  {
    var front, n := listed[..|listed| - 1], |listed| - 1;
    var kept := Dialable(front, own, refused);
    DialableOnce(front, own, refused);
    assert forall m :: 0 <= m < |kept| ==> kept[m] in kept;
    if j < |kept| {
      DialableInOrder(front, own, refused, i, j);
      var k, l :| 0 <= k < l < |front| && front[k] == kept[i] && front[l] == kept[j] && front[l] !in front[..l];
      assert front[..l] == listed[..l];
    } else {
      assert i < |kept| && kept[i] in kept;
      assert kept[i] in front;
      var k :| 0 <= k < |front| && front[k] == kept[i];
      assert listed[k] == kept[i] && listed[n] !in listed[..n];
    }
  }

  /** What one device's route gave: a standing, or none for whatever reason, and the clock and refusals then. */
  datatype Answer = Answer(standing: Option<Content>, now: nat, refused: Refusals)

  predicate WouldTake(home: View, pin: Option<Content>, cert: Option<Content>, a: Answer) {
    a.standing.Some? && Takes(home, a.refused, pin, cert, a.standing.value, a.now).Some?
  }

  /** `pick_up`: of the devices listed, those neither this machine nor refused, each asked at most once and in
      order, stopping at the first whose standing is taken; `answer` is what each device's route gives. */
  method PickUp(home: DeviceHome, listed: seq<Key>, refused: set<Key>, answer: Key -> Answer)
    returns (r: Result<Option<Key>, ()>, asked: seq<Key>)
    modifies home`keyCert
    ensures asked <= Dialable(listed, home.view.own, refused)
    ensures forall i, j :: 0 <= i < j < |asked| ==> asked[i] != asked[j]
    ensures r.Ok? && r.value.Some? ==>
              && asked != [] && r.value.value == asked[|asked| - 1]
              && WouldTake(home.view, home.rootPub, old(home.keyCert), answer(r.value.value))
              && home.keyCert == answer(r.value.value).standing
    ensures r.Ok? && r.value.None? ==>
              asked == Dialable(listed, home.view.own, refused) && home.keyCert == old(home.keyCert)
    ensures r.Ok? ==>
              forall i :: 0 <= i < (if r.value.Some? then |asked| - 1 else |asked|) ==>
                !WouldTake(home.view, home.rootPub, old(home.keyCert), answer(asked[i]))
  {
    var devices := KeepDialable(listed, home.view.own, refused);
    DialableOnce(listed, home.view.own, refused);
    asked := [];
    for i := 0 to |devices|
      invariant asked == devices[..i] && home.keyCert == old(home.keyCert)
      invariant forall k :: 0 <= k < i ==>
                  !WouldTake(home.view, home.rootPub, old(home.keyCert), answer(devices[k]))
    {
      asked := asked + [devices[i]];
      var a := answer(devices[i]);
      if a.standing.None? { continue; }
      var taken := home.TakeRenewal(a.standing.value, a.now, a.refused);
      if taken.Err? { return Err(()), asked; }
      if taken.value.Some? { return Ok(Some(devices[i])), asked; }
    }
    r := Ok(None);
  }
}
