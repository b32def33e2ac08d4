/** A machine's standing, read from its home: which root it trusts, and whether its records agree. */
module Standing {
  import opened Wrappers
  import opened TrustFiles

  /** A device standing: the root that signed it, its end, and the key it names. */
  datatype Badge = Badge(root: Key, until: Option<nat>, subject: Key)

  /** How the foreign formats read a pin and a standing. */
  datatype Formats = Formats(pin: Content -> Option<Key>, badge: Content -> Option<Badge>)

  datatype Class =
    Unpinned | Device(pin: Key, until: nat) | HoldsRoot(pin: Key, until: nat) | InterruptedMint(root: Key)

  datatype Damage =
    | OwnKeyPinned | RootNotPinned | RootWithoutStanding | PinWithoutStanding | StandingWithoutPin
    | StandingFromAnotherRoot | UnreadablePin | UnreadableStanding | StandingForAnotherKey

  /** The rest of what is read: this machine's key, the live root kept here, and the keys revoked here. */
  datatype Here = Here(own: Option<Key>, root: Option<Key>, revoked: set<Key>)

  function ReadPin(f: Formats, image: Image): Result<Option<Key>, Damage> {
    match image(RootPub)
    case None => Ok(None)
    case Some(text) => match f.pin(text) case Some(key) => Ok(Some(key)) case None => Err(UnreadablePin)
  }

  function LoadBadge(f: Formats, image: Image): Result<Option<Badge>, Damage> {
    match image(KeyCert)
    case None => Ok(None)
    case Some(text) => match f.badge(text) case Some(b) => Ok(Some(b)) case None => Err(UnreadableStanding)
  }

  /** Until when this machine is a device of the pinned root; none when no standing is there. */
  function ReadBadge(f: Formats, here: Here, pin: Key, image: Image): Result<Option<nat>, Damage> {
    var badge :- LoadBadge(f, image);
    if badge.None? then Ok(None)
    else if badge.value.root != pin then Err(StandingFromAnotherRoot)
    else if badge.value.until.None? then Err(UnreadableStanding)
    else if here.own != Some(badge.value.subject) then Err(StandingForAnotherKey)
    else Ok(badge.value.until)
  }

  function Classify(f: Formats, here: Here, pin: Option<Key>, image: Image): Result<Class, Damage> {
    match (here.root, pin)
    case (Some(root), None) => Ok(InterruptedMint(root))
    case (Some(root), Some(pin)) =>
      if root != pin then Err(RootNotPinned)
      else
        (match ReadBadge(f, here, pin, image)
         case Ok(None) => Err(RootWithoutStanding)
         case Err(StandingFromAnotherRoot) => Err(RootWithoutStanding)
         case Ok(Some(until)) => Ok(HoldsRoot(pin, until))
         case Err(e) => Err(e))
    case (None, None) =>
      var badge :- LoadBadge(f, image);
      if badge.None? || badge.value.root in here.revoked then Ok(Unpinned) else Err(StandingWithoutPin)
    case (None, Some(pin)) =>
      var until :- ReadBadge(f, here, pin, image);
      if until.None? then Err(PinWithoutStanding) else Ok(Device(pin, until.value))
  }

  /** `Standing::read`. */
  function Read(f: Formats, here: Here, image: Image): Result<Class, Damage> {
    var pin :- ReadPin(f, image);
    if pin.Some? && here.own == pin then Err(OwnKeyPinned)
    else Classify(f, here, if pin.Some? && pin.value in here.revoked then None else pin, image)
  }

  /** How a home reads, exactly, by the key its pin names, the standing it holds, and what is kept and revoked here. */
  lemma ReadExact(f: Formats, here: Here, image: Image, p: Key, until: nat)
    ensures var r := Read(f, here, image);
            var pin, cert := image(RootPub), image(KeyCert);
            var key := if pin.Some? then f.pin(pin.value) else None;
            var badge := if cert.Some? then f.badge(cert.value) else None;
            var sound := (pin.Some? ==> key.Some?) && (key.Some? ==> here.own != key);
            var none := sound && (key.None? || key.value in here.revoked);
            var live := sound && key == Some(p) && p !in here.revoked;
            var rooted := live && here.root == Some(p);
            var device := live && here.root.None?;
            && (r == Err(UnreadablePin) <==> pin.Some? && key.None?)
            && (r == Err(OwnKeyPinned) <==> key.Some? && here.own == key)
            && (r == Ok(Unpinned) <==>
                  none && here.root.None? && (cert.None? || (badge.Some? && badge.value.root in here.revoked)))
            && (r == Err(StandingWithoutPin) <==>
                  none && here.root.None? && badge.Some? && badge.value.root !in here.revoked)
            && (r == Ok(InterruptedMint(p)) <==> none && here.root == Some(p))
            && (live && here.root.Some? && here.root != Some(p) ==> r == Err(RootNotPinned))
            && (r == Ok(Device(p, until)) <==>
                  device && here.own.Some? && badge == Some(Badge(p, Some(until), here.own.value)))
            && (r == Ok(HoldsRoot(p, until)) <==>
                  rooted && here.own.Some? && badge == Some(Badge(p, Some(until), here.own.value)))
            && (device && cert.None? ==> r == Err(PinWithoutStanding))
            && (device && badge.Some? && badge.value.root != p ==> r == Err(StandingFromAnotherRoot))
            && (rooted && (cert.None? || (badge.Some? && badge.value.root != p)) ==> r == Err(RootWithoutStanding))
            && ((device || rooted) && cert.Some?
                && (badge.Some? ==> badge.value.root == p && badge.value.until.None?) ==>
                  r == Err(UnreadableStanding))
            && (none && here.root.None? && cert.Some? && badge.None? ==> r == Err(UnreadableStanding))
            && ((device || rooted) && badge.Some? && badge.value.root == p && badge.value.until.Some? ==>
                  here.own != Some(badge.value.subject) ==> r == Err(StandingForAnotherKey))
  {
    if image(KeyCert).Some? && f.badge(image(KeyCert).value).Some? {
      var b := f.badge(image(KeyCert).value).value;
      assert b == Badge(b.root, b.until, b.subject);
    }
  }

  /** The damage whose line sends the person back to `join`. */
  predicate UnfinishedJoin(r: Result<Class, Damage>) {
    r == Err(StandingWithoutPin) || r == Err(StandingFromAnotherRoot)
  }

  /** A join worth making: its pin and its standing read back, as a live root that is not this machine's own
      key, and a standing it signed for this machine. */
  predicate Sensible(f: Formats, here: Here, j: Join, root: Key, until: nat) {
    && here.own.Some? && here.root.None? && here.own != Some(root) && root !in here.revoked
    && f.pin(j.pin) == Some(root)
    && f.badge(j.standing) == Some(Badge(root, Some(until), here.own.value))
  }

  /** A home no act is half way through: one pin, one standing, on disk. */
  ghost predicate Quiet(d: Disk) {
    && Whole(d) && d.may(RootPub) == {d.now(RootPub)} && d.may(KeyCert) == {d.now(KeyCert)}
  }

  /** The pin and the standing alone decide how a home reads. */
  lemma ReadDecides(f: Formats, here: Here, a: Image, b: Image)
    requires a(RootPub) == b(RootPub) && a(KeyCert) == b(KeyCert)
    ensures Read(f, here, a) == Read(f, here, b)
  {}

  /** Whatever stands beside an unfinished join's pin: a standing of the join's beside the pin of before. */
  lemma NewStandingReads(f: Formats, here: Here, j: Join, root: Key, until: nat, a: Image, b: Image)
    requires Sensible(f, here, j, root, until)
    requires a(KeyCert) == Some(j.standing) && b(RootPub) == a(RootPub)
    ensures var r := Read(f, here, a); UnfinishedJoin(r) || r == Ok(Device(root, until)) || r == Read(f, here, b)
  {}

  /** A crash anywhere in a join, into any home, reads as the join done, as a join that did not finish, or as a
      crash before the join would have: never as a standing nobody gave. */
  lemma JoinReadsWhole(f: Formats, here: Here, was: Disk, d: Disk, j: Join, root: Key, until: nat, image: Image)
    requires Whole(was) && Sensible(f, here, j, root, until)
    requires JoinState(was, d, j) && CrashOf(d, image)
    ensures var r := Read(f, here, image);
            || UnfinishedJoin(r) || r == Ok(Device(root, until))
            || exists before :: CrashOf(was, before) && r == Read(f, here, before)
  {
    assert Leaves(d.may(RootPub), image(RootPub)) && Leaves(d.may(KeyCert), image(KeyCert));
    if Leaves(was.may(RootPub), image(RootPub)) {
      var cert := if Leaves(was.may(KeyCert), image(KeyCert)) then image(KeyCert) else Held(was.now(KeyCert));
      assert was.now(KeyCert) in was.may(KeyCert);
      var before := CrashImage(was, RootPub, image(RootPub), KeyCert, cert);
      CrashImageIs(was, RootPub, image(RootPub), KeyCert, cert);
      if cert == image(KeyCert) {
        ReadDecides(f, here, image, before);
      } else {
        NewStandingReads(f, here, j, root, until, image, before);
      }
    } else {
      assert image(RootPub) == Some(j.pin) && Prepared(d, j) && image(KeyCert) == Some(j.standing);
    }
  }

  /** Into a home no act is half way through, that is as it read before, whatever pin it held. */
  lemma JoinReadsQuiet(f: Formats, here: Here, was: Disk, d: Disk, j: Join, root: Key, until: nat, image: Image)
    requires Quiet(was) && Sensible(f, here, j, root, until)
    requires JoinState(was, d, j) && CrashOf(d, image)
    ensures var r := Read(f, here, image);
            r == Read(f, here, Now(was)) || UnfinishedJoin(r) || r == Ok(Device(root, until))
  {
    JoinReadsWhole(f, here, was, d, j, root, until, image);
    if before :| CrashOf(was, before) && Read(f, here, image) == Read(f, here, before) {
      assert Leaves(was.may(RootPub), before(RootPub)) && Leaves(was.may(KeyCert), before(KeyCert));
      ReadDecides(f, here, before, Now(was));
    }
  }

  /** Whether a crash somewhere in a join may leave a home that reads as `r`. */
  ghost predicate MayRead(f: Formats, here: Here, was: Disk, j: Join, r: Result<Class, Damage>) {
    exists d, image :: JoinState(was, d, j) && CrashOf(d, image) && Read(f, here, image) == r
  }

  /** A pin that a standing could stand under. */
  predicate Live(f: Formats, here: Here, e: Entry) {
    e.File? && f.pin(e.content).Some? && f.pin(e.content) != here.own && f.pin(e.content).value !in here.revoked
  }

  /** A home that may show a live pin and no standing. */
  ghost predicate MayLack(f: Formats, here: Here, d: Disk) {
    Absent in d.may(KeyCert) && exists e :: e in d.may(RootPub) && Live(f, here, e)
  }

  lemma LacksStanding(f: Formats, here: Here, d: Disk, image: Image)
    requires Whole(d) && CrashOf(d, image) && Read(f, here, image) == Err(PinWithoutStanding)
    ensures MayLack(f, here, d)
  {
    assert Leaves(d.may(RootPub), image(RootPub)) && Leaves(d.may(KeyCert), image(KeyCert));
    assert Live(f, here, File(image(RootPub).value, true));
  }

  lemma LackFound(f: Formats, here: Here, d: Disk) returns (image: Image)
    requires Whole(d) && here.root.None? && MayLack(f, here, d)
    ensures CrashOf(d, image) && Read(f, here, image) == Err(PinWithoutStanding)
  {
    var e :| e in d.may(RootPub) && Live(f, here, e);
    image := CrashImage(d, RootPub, Held(e), KeyCert, None);
    CrashImageIs(d, RootPub, Held(e), KeyCert, None);
  }

  /** The fourth outcome, exactly: a crash in a join may read as a pin without its standing when and only when
      the home it starts from may show a live pin and no standing, as one just left may. */
  lemma JoinLacksStanding(f: Formats, here: Here, was: Disk, j: Join, root: Key, until: nat)
    requires Whole(was) && Sensible(f, here, j, root, until)
    ensures MayRead(f, here, was, j, Err(PinWithoutStanding)) <==> MayLack(f, here, was)
  {
    if MayRead(f, here, was, j, Err(PinWithoutStanding)) {
      var d, image :| JoinState(was, d, j) && CrashOf(d, image) && Read(f, here, image) == Err(PinWithoutStanding);
      JoinReadsWhole(f, here, was, d, j, root, until, image);
      var before :| CrashOf(was, before) && Read(f, here, before) == Err(PinWithoutStanding);
      LacksStanding(f, here, was, before);
    } else if MayLack(f, here, was) {
      var image := LackFound(f, here, was);
      assert JoinState(was, was, j);
    }
  }

  /** How a home that was some root's device, and left it, reads after a power loss: gone, as it was, or half gone
      either way. The last of these has no pin and reads as a join that did not finish. */
  predicate LeftReads(r: Result<Class, Damage>, pin: Key, until: nat) {
    r in {Ok(Unpinned), Ok(Device(pin, until)), Err(PinWithoutStanding), Err(StandingWithoutPin)}
  }

  /** Each of them is found, and nothing else is. */
  lemma LeftHomeReads(f: Formats, here: Here, was: Disk, d: Disk, pin: Key, until: nat, r: Result<Class, Damage>)
    requires Quiet(was) && here.root.None? && Read(f, here, Now(was)) == Ok(Device(pin, until))
    requires Whole(d) && Left(was, d, false)
    ensures (exists image :: CrashOf(d, image) && Read(f, here, image) == r) <==> LeftReads(r, pin, until)
  {
    var p, c := Held(was.now(RootPub)), Held(was.now(KeyCert));
    assert d.now(RootPub) in d.may(RootPub) && d.now(KeyCert) in d.may(KeyCert);
    assert was.now(RootPub) in d.may(RootPub) && was.now(KeyCert) in d.may(KeyCert);
    if image :| CrashOf(d, image) && Read(f, here, image) == r {
      assert Leaves(d.may(RootPub), image(RootPub)) && Leaves(d.may(KeyCert), image(KeyCert));
      assert image(RootPub) in {None, p} && image(KeyCert) in {None, c};
      LeftCombination(f, here, was, pin, until, image);
    }
    if LeftReads(r, pin, until) {
      var root := if r in {Ok(Unpinned), Err(StandingWithoutPin)} then None else p;
      var cert := if r in {Ok(Unpinned), Err(PinWithoutStanding)} then None else c;
      CrashImageIs(d, RootPub, root, KeyCert, cert);
      LeftCombination(f, here, was, pin, until, CrashImage(d, RootPub, root, KeyCert, cert));
    }
  }

  /** What each of the four combinations of pin and standing reads as. */
  lemma LeftCombination(f: Formats, here: Here, was: Disk, pin: Key, until: nat, image: Image)
    requires here.root.None? && Read(f, here, Now(was)) == Ok(Device(pin, until))
    requires image(RootPub) in {None, Held(was.now(RootPub))} && image(KeyCert) in {None, Held(was.now(KeyCert))}
    ensures was.now(RootPub).File? && was.now(KeyCert).File?
    ensures Read(f, here, image) ==
            match (image(RootPub), image(KeyCert))
            case (None, None) => Ok(Unpinned)
            case (None, Some(_)) => Err(StandingWithoutPin)
            case (Some(_), None) => Err(PinWithoutStanding)
            case (Some(_), Some(_)) => Ok(Device(pin, until))
  {}

  /** A device that stops part way through leaving reads as the device it was, as a leave that did not finish,
      or, once the pin is gone, as trusting no root. */
  lemma LeaveReadsWhole(f: Formats, here: Here, was: Disk, d: Disk, pin: Key, until: nat)
    requires here.root.None? && Read(f, here, Now(was)) == Ok(Device(pin, until))
    requires PinOutlasts(d, false)
    requires d.now(RootPub) == Absent || d.now(RootPub) == was.now(RootPub)
    requires d.now(KeyCert) == Absent || d.now(KeyCert) == was.now(KeyCert)
    ensures var r := Read(f, here, Now(d));
            && (r == Ok(Device(pin, until)) || r == Err(PinWithoutStanding) || r == Ok(Unpinned))
            && (r == Ok(Unpinned) <==> d.now(RootPub) == Absent)
  {}
}
