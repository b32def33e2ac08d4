/** The trust files of a home, on a disk that forgets what was not synced: the one routine that writes them,
    and the ordered acts of joining a root and leaving it. */
module TrustFiles {
  import opened Wrappers

  type Content = string

  /** The files these acts touch; a temp sibling is unique to one write. */
  datatype Name =
    | RootPub | KeyCert | InvitedBy | Devices | Synced | Conflict
    | Temp(of: Name, serial: nat)

  /** What a name holds: nothing, or a file, whose bytes a sync reached or not. */
  datatype Entry = Absent | File(content: Content, synced: bool)

  /** The directory as it reads now, and, name by name, every entry a power loss may leave: the one the last
      sync of the directory fixed, and each one since. */
  datatype Disk = Disk(now: Name -> Entry, may: Name -> set<Entry>)

  /** What is found after a power loss. */
  type Image = Name -> Option<Content>

  predicate Leaves(entries: set<Entry>, found: Option<Content>) {
    match found
    case None => Absent in entries
    case Some(content) => File(content, true) in entries || exists e: Entry :: e in entries && e.File? && !e.synced
  }

  ghost predicate CrashOf(d: Disk, image: Image) { forall n :: Leaves(d.may(n), image(n)) }

  /** Every name but a temp holds only whole, synced files, and what reads now is among what may be left. */
  ghost predicate Whole(d: Disk) {
    && (forall n :: d.now(n) in d.may(n))
    && (forall n: Name, e: Entry :: !n.Temp? && e in d.may(n) ==> e.Absent? || e.synced)
  }

  function Held(e: Entry): Option<Content> { match e case Absent => None case File(content, _) => Some(content) }

  /** The home as it reads, with no power loss. */
  function Now(d: Disk): Image { n => Held(d.now(n)) }

  /** What a power loss may leave: two names as given, every other as it reads. */
  function CrashImage(d: Disk, n: Name, c: Option<Content>, m: Name, e: Option<Content>): Image {
    k => if k == n then c else if k == m then e else Held(d.now(k))
  }

  lemma CrashImageIs(d: Disk, n: Name, c: Option<Content>, m: Name, e: Option<Content>)
    requires Whole(d) && Leaves(d.may(n), c) && Leaves(d.may(m), e)
    ensures CrashOf(d, CrashImage(d, n, c, m, e)) && CrashOf(d, Now(d))
  {
    forall k ensures Leaves(d.may(k), Held(d.now(k))) { assert d.now(k) in d.may(k); }
  }

  // --- the steps of the filesystem ---

  function Become(d: Disk, n: Name, e: Entry): Disk {
    Disk(m => if m == n then e else d.now(m), m => if m == n then d.may(m) + {e} else d.may(m))
  }

  function Rename(d: Disk, from: Name, to: Name): Disk { Become(Become(d, to, d.now(from)), from, Absent) }

  /** Nothing that may be left is ruled out. */
  ghost predicate Grows(was: Disk, d: Disk) { forall n :: was.may(n) <= d.may(n) }

  /** The first of the states passed from `from` on rules nothing out, and with none nothing changed. */
  ghost predicate Opens(was: Disk, d: Disk, seen: seq<Disk>, from: nat) {
    if |seen| <= from then d == was else Grows(was, seen[from])
  }

  function SyncDir(d: Disk): Disk { Disk(d.now, m => {d.now(m)}) }

  lemma TempStep(was: Disk, d: Disk, temp: Name, e: Entry)
    requires Whole(d) && TempOnly(was, d, temp) && temp.Temp?
    ensures Whole(Become(d, temp, e)) && TempOnly(was, Become(d, temp, e), temp) && Grows(d, Become(d, temp, e))
  {}

  lemma RenameStep(d: Disk, temp: Name, target: Name)
    requires Whole(d) && temp.Temp? && !target.Temp? && d.now(temp).File? && d.now(temp).synced
    ensures Whole(Rename(d, temp, target)) && Grows(d, Rename(d, temp, target))
    ensures During(d, Rename(d, temp, target), target, temp, d.now(temp).content)
    ensures During(d, SyncDir(Rename(d, temp, target)), target, temp, d.now(temp).content)
    ensures Settled(d, SyncDir(Rename(d, temp, target)), target, temp, d.now(temp).content)
    ensures Whole(SyncDir(Rename(d, temp, target)))
  {}

  /** A home's directory, and every state it passed through. */
  class Home {
    var disk: Disk
    var serial: nat
    ghost var seen: seq<Disk>

    constructor (d: Disk)
      ensures disk == d && seen == []
    {
      disk, serial, seen := d, 0, [];
    }

    method Step(d: Disk)
      modifies `disk, `seen
      ensures disk == d && seen == old(seen) + [d]
    {
      disk := d;
      seen := seen + [d];
    }

    /** `write_private_atomic`: a temp sibling written and synced, renamed over the target, the directory
        synced. Any step may fail; `renamed` says whether the new name was taken. */
    method WritePrivateAtomic(target: Name, content: Content) returns (ok: bool, ghost renamed: bool)
      requires !target.Temp? && Whole(disk)
      modifies this
      ensures Whole(disk)
      ensures serial == old(serial) + 1 && old(seen) <= seen
      ensures Opens(old(disk), disk, seen, |old(seen)|)
      ensures forall i :: |old(seen)| <= i < |seen| ==> Whole(seen[i])
      ensures forall i :: |old(seen)| <= i < |seen| ==>
                During(old(disk), seen[i], target, Temp(target, old(serial)), content)
      ensures During(old(disk), disk, target, Temp(target, old(serial)), content)
      ensures ok ==> renamed && Settled(old(disk), disk, target, Temp(target, old(serial)), content)
      ensures renamed ==> disk.now(target) == File(content, true)
      ensures !renamed ==> disk.now(target) == old(disk).now(target) && disk.may(target) == old(disk).may(target)
    {
      var temp := Temp(target, serial);
      serial := serial + 1;
      renamed := false;
      ok := WriteTemp(temp, content);
      if !ok { return; }
      ok, renamed := RenamePrivate(temp, target);
      if !ok { RemoveTemp(temp); }
    }

    /** The temp sibling, made, written and synced; a failure takes it away again. */
    method WriteTemp(temp: Name, content: Content) returns (ok: bool)
      requires temp.Temp? && Whole(disk)
      modifies `disk, `seen
      ensures Whole(disk) && old(seen) <= seen
      ensures Opens(old(disk), disk, seen, |old(seen)|)
      ensures forall i :: |old(seen)| <= i < |seen| ==> Whole(seen[i])
      ensures TempOnly(old(disk), disk, temp)
      ensures forall i :: |old(seen)| <= i < |seen| ==> TempOnly(old(disk), seen[i], temp)
      ensures ok ==> disk.now(temp) == File(content, true)
    {
      if * { return false; }
      var denied: bool := *;
      if disk.now(temp) != Absent || denied {
        RemoveTemp(temp);
        return false;
      }
      ghost var was := disk;
      TempStep(was, disk, temp, File("", false));
      Step(Become(disk, temp, File("", false)));
      var landed: nat := *;
      if 0 <= landed < |content| {
        TempStep(was, disk, temp, File(content[..landed], false));
        Step(Become(disk, temp, File(content[..landed], false)));
        RemoveTemp(temp);
        return false;
      }
      TempStep(was, disk, temp, File(content, false));
      Step(Become(disk, temp, File(content, false)));
      if * {
        RemoveTemp(temp);
        return false;
      }
      TempStep(was, disk, temp, File(content, true));
      Step(Become(disk, temp, File(content, true)));
      return true;
    }

    /** `rename_private`: the rename, then the sync of the directory, either of which may fail. */
    method RenamePrivate(temp: Name, target: Name) returns (ok: bool, ghost renamed: bool)
      requires temp.Temp? && !target.Temp? && Whole(disk) && disk.now(temp).File? && disk.now(temp).synced
      modifies `disk, `seen
      ensures Whole(disk) && old(seen) <= seen
      ensures Opens(old(disk), disk, seen, |old(seen)|)
      ensures forall i :: |old(seen)| <= i < |seen| ==> Whole(seen[i])
      ensures During(old(disk), disk, target, temp, old(disk).now(temp).content)
      ensures forall i :: |old(seen)| <= i < |seen| ==>
                During(old(disk), seen[i], target, temp, old(disk).now(temp).content)
      ensures ok ==> renamed && Settled(old(disk), disk, target, temp, old(disk).now(temp).content)
      ensures renamed ==> disk.now(target) == old(disk).now(temp)
      ensures !renamed ==> disk == old(disk)
    {
      if * { return false, false; }
      RenameStep(disk, temp, target);
      Step(Rename(disk, temp, target));
      if * { return false, true; }
      Step(SyncDir(disk));
      return true, true;
    }

    /** A failed write takes its temp away; whether that works is not asked. */
    method RemoveTemp(temp: Name)
      requires temp.Temp? && Whole(disk)
      modifies `disk, `seen
      ensures Whole(disk) && old(seen) <= seen
      ensures disk == old(disk) || disk == Become(old(disk), temp, Absent)
      ensures if seen == old(seen) then disk == old(disk) else seen == old(seen) + [disk]
    {
      if * { Step(Become(disk, temp, Absent)); }
    }

    /** `remove`: already gone is done. */
    method Remove(n: Name) returns (ok: bool)
      requires !n.Temp? && Whole(disk)
      modifies `disk, `seen
      ensures Whole(disk)
      ensures ok ==> disk == Become(old(disk), n, Absent) || (disk == old(disk) && disk.now(n) == Absent)
      ensures !ok ==> disk == old(disk)
      ensures seen == old(seen) || seen == old(seen) + [disk]
      ensures disk != old(disk) ==> seen == old(seen) + [disk]
    {
      if * { return false; }
      if disk.now(n) != Absent { Step(Become(disk, n, Absent)); }
      return true;
    }
  }

  ghost predicate TempOnly(was: Disk, d: Disk, temp: Name) {
    forall n :: n != temp ==> d.now(n) == was.now(n) && d.may(n) == was.may(n)
  }

  /** While `content` is written to `target`: every other file stays as it was, and the target is its old self
      or the whole of the new one, now and after a power loss. */
  ghost predicate During(was: Disk, d: Disk, target: Name, temp: Name, content: Content) {
    && (forall n :: n != target && n != temp ==> d.now(n) == was.now(n) && d.may(n) <= was.may(n))
    && d.may(target) <= was.may(target) + {File(content, true)}
    && (d.now(target) == was.now(target) || d.now(target) == File(content, true))
  }

  /** Once it is written: on disk, and every change made before it too. */
  ghost predicate Settled(was: Disk, d: Disk, target: Name, temp: Name, content: Content) {
    && d.now(target) == File(content, true)
    && forall n :: d.may(n) == {d.now(n)} && (n != target && n != temp ==> d.now(n) == was.now(n))
  }

  // --- joining ---

  /** What a join writes: the pin, this machine's standing, and who invited it. */
  datatype Join = Join(pin: Content, standing: Content, invited: Content)

  /** All a join writes ahead of the pin is in place, and the lists of the root before are gone. */
  ghost predicate Prepared(d: Disk, j: Join) {
    && d.may(KeyCert) <= {File(j.standing, true)}
    && d.may(InvitedBy) <= {File(j.invited, true)}
    && d.may(Devices) <= {Absent} && d.may(Synced) <= {Absent} && d.may(Conflict) <= {Absent}
  }

  /** Wherever the new pin may be found, so is the rest of the join. */
  ghost predicate PinIsLast(d: Disk, j: Join) { File(j.pin, true) in d.may(RootPub) ==> Prepared(d, j) }

  /** A state a join passes through: each file is the old one or what the join makes of it, never torn, and the
      pin is still only what it was, or all that goes ahead of it is in place. */
  ghost predicate JoinState(was: Disk, d: Disk, j: Join) {
    && d.may(RootPub) <= was.may(RootPub) + {File(j.pin, true)}
    && d.may(KeyCert) <= was.may(KeyCert) + {File(j.standing, true)}
    && d.may(InvitedBy) <= was.may(InvitedBy) + {File(j.invited, true)}
    && ListsGo(was, d)
    && (d.may(RootPub) <= was.may(RootPub) || Prepared(d, j))
  }

  /** The lists stay or go. */
  ghost predicate ListsGo(was: Disk, d: Disk) {
    forall n :: n in {Devices, Synced, Conflict} ==> d.may(n) <= was.may(n) + {Absent}
  }

  /** Before the inviter is written only the lists have moved. */
  ghost predicate ListsOnly(was: Disk, d: Disk) {
    && ListsGo(was, d)
    && forall n :: n in {RootPub, KeyCert, InvitedBy} ==> d.may(n) <= was.may(n) && d.now(n) == was.now(n)
  }

  lemma RemovalListsOnly(was: Disk, d: Disk, n: Name)
    requires ListsOnly(was, d) && n in {Devices, Synced, Conflict}
    ensures ListsOnly(was, Become(d, n, Absent))
  {}

  /** Remove the lists of the root before; every change is to them alone. */
  method RemoveLists(home: Home) returns (ok: bool)
    requires Whole(home.disk)
    modifies home
    ensures Whole(home.disk) && old(home.seen) <= home.seen
    ensures Opens(old(home.disk), home.disk, home.seen, |old(home.seen)|)
    ensures ListsOnly(old(home.disk), home.disk)
    ensures forall i :: |old(home.seen)| <= i < |home.seen| ==>
              Whole(home.seen[i]) && ListsOnly(old(home.disk), home.seen[i])
    ensures ok ==> home.disk.now(Devices) == home.disk.now(Synced) == home.disk.now(Conflict) == Absent
  {
    ghost var was, from := home.disk, |home.seen|;
    var lists := [Devices, Synced, Conflict];
    for i := 0 to |lists|
      invariant Whole(home.disk) && old(home.seen) <= home.seen
      invariant Opens(was, home.disk, home.seen, from)
      invariant ListsOnly(was, home.disk)
      invariant forall k :: from <= k < |home.seen| ==> Whole(home.seen[k]) && ListsOnly(was, home.seen[k])
      invariant forall k :: 0 <= k < i ==> home.disk.now(lists[k]) == Absent
    {
      RemovalListsOnly(was, home.disk, lists[i]);
      ok := home.Remove(lists[i]);
      if !ok { return; }
    }
    assert lists[0] == Devices && lists[1] == Synced && lists[2] == Conflict;
    ok := true;
  }

  /** What a join does ahead of a changed pin: clear away the lists, and name the inviter. */
  method Prepare(home: Home, j: Join) returns (ok: bool)
    requires Whole(home.disk)
    modifies home
    ensures Whole(home.disk) && old(home.seen) <= home.seen
    ensures Opens(old(home.disk), home.disk, home.seen, |old(home.seen)|)
    ensures JoinState(old(home.disk), home.disk, j)
    ensures forall i :: |old(home.seen)| <= i < |home.seen| ==>
              Whole(home.seen[i]) && JoinState(old(home.disk), home.seen[i], j)
    ensures ok ==> Cleared(old(home.disk), home.disk, j)
  {
    ok := RemoveLists(home);
    if !ok { return; }
    ghost var renamed;
    ok, renamed := home.WritePrivateAtomic(InvitedBy, j.invited);
  }

  /** The lists gone and the inviter written, on disk; the pin and the standing as they read before. */
  ghost predicate Cleared(was: Disk, d: Disk, j: Join) {
    && (forall n :: d.may(n) == {d.now(n)})
    && d.now(RootPub) == was.now(RootPub) && d.now(KeyCert) == was.now(KeyCert)
    && d.now(InvitedBy) == File(j.invited, true)
    && d.now(Devices) == d.now(Synced) == d.now(Conflict) == Absent
  }

  lemma WritingStanding(was: Disk, d: Disk, next: Disk, j: Join, temp: Name)
    requires Whole(was) && Cleared(was, d, j) && temp.Temp? && During(d, next, KeyCert, temp, j.standing)
    ensures JoinState(was, next, j)
  {}

  lemma WritingPin(was: Disk, d: Disk, next: Disk, j: Join, temp: Name)
    requires Whole(was) && temp.Temp? && During(d, next, RootPub, temp, j.pin)
    requires Prepared(d, j) && d.may(RootPub) <= was.may(RootPub)
    ensures JoinState(was, next, j)
  {}

  /** `same_root_write` of a join that changes the pin. */
  method WriteStanding(home: Home, j: Join, ghost was: Disk) returns (ok: bool)
    requires Whole(was) && Whole(home.disk) && Cleared(was, home.disk, j)
    modifies home
    ensures Whole(home.disk) && old(home.seen) <= home.seen
    ensures Opens(old(home.disk), home.disk, home.seen, |old(home.seen)|)
    ensures JoinState(was, home.disk, j)
    ensures forall i :: |old(home.seen)| <= i < |home.seen| ==> Whole(home.seen[i]) && JoinState(was, home.seen[i], j)
    ensures ok ==> Prepared(home.disk, j) && home.disk.may(RootPub) <= was.may(RootPub)
  {
    ghost var d, n, temp, renamed := home.disk, |home.seen|, Temp(KeyCert, home.serial), false;
    ok, renamed := home.WritePrivateAtomic(KeyCert, j.standing);
    WritingStanding(was, d, home.disk, j, temp);
    forall i | n <= i < |home.seen| ensures JoinState(was, home.seen[i], j) {
      WritingStanding(was, d, home.seen[i], j, temp);
    }
  }

  /** The pin of a join, written last. */
  method WritePin(home: Home, j: Join, ghost was: Disk) returns (ok: bool)
    requires Whole(was) && Whole(home.disk) && Prepared(home.disk, j) && home.disk.may(RootPub) <= was.may(RootPub)
    modifies home
    ensures Whole(home.disk) && old(home.seen) <= home.seen
    ensures Opens(old(home.disk), home.disk, home.seen, |old(home.seen)|)
    ensures JoinState(was, home.disk, j)
    ensures forall i :: |old(home.seen)| <= i < |home.seen| ==> Whole(home.seen[i]) && JoinState(was, home.seen[i], j)
    ensures ok ==> home.disk.may(RootPub) == {File(j.pin, true)} && Prepared(home.disk, j)
  {
    ghost var d, n, temp, renamed := home.disk, |home.seen|, Temp(RootPub, home.serial), false;
    ok, renamed := home.WritePrivateAtomic(RootPub, j.pin);
    WritingPin(was, d, home.disk, j, temp);
    forall i | n <= i < |home.seen| ensures JoinState(was, home.seen[i], j) {
      WritingPin(was, d, home.seen[i], j, temp);
    }
  }

  /** A join that changes the pin: what goes ahead of it, then the standing, then the pin. */
  method JoinRoot(home: Home, j: Join) returns (ok: bool)
    requires Whole(home.disk)
    modifies home
    ensures Whole(home.disk) && old(home.seen) <= home.seen
    ensures Opens(old(home.disk), home.disk, home.seen, |old(home.seen)|)
    ensures JoinState(old(home.disk), home.disk, j)
    ensures forall i :: |old(home.seen)| <= i < |home.seen| ==>
              Whole(home.seen[i]) && JoinState(old(home.disk), home.seen[i], j)
    ensures ok ==> home.disk.may(RootPub) == {File(j.pin, true)} && Prepared(home.disk, j)
  {
    ghost var was := home.disk;
    ok := Prepare(home, j);
    if !ok { return; }
    ok := WriteStanding(home, j, was);
    if !ok { return; }
    ok := WritePin(home, j, was);
  }

  /** What a join keeps of the promise its start gives, and what its first step cannot mend. */
  lemma PromiseKept(was: Disk, d: Disk, j: Join)
    ensures JoinState(was, d, j) && PinIsLast(was, j) ==> PinIsLast(d, j)
    ensures Grows(was, d) && PinIsLast(d, j) ==> PinIsLast(was, j)
  {}

  /** `join`. When the pin changes, a new pin stands beside the rest of the join in every state passed exactly
      when it did before the first: when the home could not show that pin, or showed it beside all of it. */
  method DoJoin(home: Home, j: Join, pinChanges: bool) returns (ok: bool)
    requires Whole(home.disk)
    modifies home
    ensures Whole(home.disk) && old(home.seen) <= home.seen
    ensures pinChanges ==> JoinState(old(home.disk), home.disk, j)
    ensures pinChanges ==>
              forall i :: |old(home.seen)| <= i < |home.seen| ==>
                Whole(home.seen[i]) && JoinState(old(home.disk), home.seen[i], j)
    ensures pinChanges && |home.seen| > |old(home.seen)| ==>
              ((forall i :: |old(home.seen)| <= i < |home.seen| ==> PinIsLast(home.seen[i], j))
               <==> PinIsLast(old(home.disk), j))
    ensures !pinChanges ==>
              && home.disk.now(RootPub) == old(home.disk).now(RootPub)
              && forall i :: |old(home.seen)| <= i < |home.seen| ==>
                   && home.seen[i].may(RootPub) <= old(home.disk).may(RootPub)
                   && home.seen[i].may(KeyCert) <= old(home.disk).may(KeyCert) + {File(j.standing, true)}
    ensures !pinChanges ==>
              forall n: Name :: !n.Temp? && n != KeyCert ==> home.disk.now(n) == old(home.disk).now(n)
    ensures ok ==> home.disk.may(KeyCert) == {File(j.standing, true)}
    ensures ok && pinChanges ==> home.disk.may(RootPub) == {File(j.pin, true)} && Prepared(home.disk, j)
  {
    if pinChanges {
      ghost var was, from := home.disk, |home.seen|;
      ok := JoinRoot(home, j);
      forall i | from <= i < |home.seen|
        ensures PinIsLast(was, j) ==> PinIsLast(home.seen[i], j)
        ensures i == from && PinIsLast(home.seen[i], j) ==> PinIsLast(was, j)
      {
        PromiseKept(was, home.seen[i], j);
      }
      if ok { assert home.disk.now(KeyCert) in home.disk.may(KeyCert); }
    } else {
      ghost var renamed;
      ok, renamed := home.WritePrivateAtomic(KeyCert, j.standing);
    }
  }

  /** What is found after a power loss promises of a join that its pin comes with the rest. */
  predicate Promised(image: Image, j: Join) {
    image(RootPub) == Some(j.pin) ==>
      && image(KeyCert) == Some(j.standing) && image(InvitedBy) == Some(j.invited)
      && image(Devices) == image(Synced) == image(Conflict) == None
  }

  /** Crash ordering, exactly: every power loss keeps the promise when and only when the disk lets the pin be
      found with nothing else than the rest of the join. */
  lemma JoinCrash(d: Disk, j: Join)
    requires Whole(d)
    ensures (forall image :: CrashOf(d, image) ==> Promised(image, j)) <==> PinIsLast(d, j)
  {
    if PinIsLast(d, j) {
      forall image | CrashOf(d, image) ensures Promised(image, j) { PinIsLastPromises(d, j, image); }
    } else {
      Unprepared(d, j);
    }
  }

  lemma PinIsLastPromises(d: Disk, j: Join, image: Image)
    requires Whole(d) && PinIsLast(d, j) && CrashOf(d, image)
    ensures Promised(image, j)
  {
    assert Leaves(d.may(RootPub), image(RootPub)) && Leaves(d.may(KeyCert), image(KeyCert));
    assert Leaves(d.may(InvitedBy), image(InvitedBy)) && Leaves(d.may(Devices), image(Devices));
    assert Leaves(d.may(Synced), image(Synced)) && Leaves(d.may(Conflict), image(Conflict));
  }

  lemma Unprepared(d: Disk, j: Join)
    requires Whole(d) && !PinIsLast(d, j)
    ensures exists image :: CrashOf(d, image) && !Promised(image, j)
  {
    var n, e :| n in {KeyCert, InvitedBy, Devices, Synced, Conflict} && e in d.may(n)
                && e != if n == KeyCert then File(j.standing, true)
                        else if n == InvitedBy then File(j.invited, true) else Absent;
    CrashImageIs(d, RootPub, Some(j.pin), n, Held(e));
    assert !Promised(CrashImage(d, RootPub, Some(j.pin), n, Held(e)), j);
  }

  /** Where the promise fails: a home that may show the join's own pin without the join's standing, as after a
      leave of that root whose removals no sync reached, or a switch away from it that stopped with it pinned. */
  lemma JoinBackShowsPinEarly(d: Disk, j: Join, found: Option<Content>)
    requires Whole(d) && File(j.pin, true) in d.may(RootPub)
    requires Leaves(d.may(KeyCert), found) && found != Some(j.standing)
    ensures !PinIsLast(d, j)
    ensures exists image :: CrashOf(d, image) && image(RootPub) == Some(j.pin) && image(KeyCert) == found
  {
    CrashImageIs(d, RootPub, Some(j.pin), KeyCert, found);
    var image := CrashImage(d, RootPub, Some(j.pin), KeyCert, found);
    assert image(RootPub) == Some(j.pin) && image(KeyCert) == found;
  }

  // --- leaving ---

  /** What a leave removes before the pin. A root kept here keeps its lists. */
  function Goes(keepsRoot: bool): seq<Name> {
    [KeyCert, Synced, InvitedBy] + if keepsRoot then [] else [Devices, Conflict]
  }

  /** The pin goes last: without it there is no standing, no sync mark and no inviter, nor, but for a root kept here,
      any list. */
  ghost predicate PinOutlasts(d: Disk, keepsRoot: bool) {
    d.now(RootPub) == Absent ==>
      && d.now(KeyCert) == d.now(Synced) == d.now(InvitedBy) == Absent
      && (!keepsRoot ==> d.now(Devices) == d.now(Conflict) == Absent)
  }

  /** What a leave takes: all a join writes, and, but for a root kept here, the lists. */
  predicate Taken(n: Name, keepsRoot: bool) {
    n in {RootPub, KeyCert, Synced, InvitedBy} || (!keepsRoot && n in {Devices, Conflict})
  }

  lemma GoesTaken(keepsRoot: bool)
    ensures forall n :: n in Goes(keepsRoot) <==> n != RootPub && Taken(n, keepsRoot)
  {
    var gone := Goes(keepsRoot);
    assert gone[0] == KeyCert && gone[1] == Synced && gone[2] == InvitedBy;
    assert !keepsRoot ==> gone[3] == Devices && gone[4] == Conflict;
  }

  /** A home a leave went through: what it takes reads as gone, and may be found as it was or gone. */
  ghost predicate Left(was: Disk, d: Disk, keepsRoot: bool) {
    && (forall n :: Taken(n, keepsRoot) ==>
          d.now(n) == Absent && was.may(n) <= d.may(n) <= was.may(n) + {Absent})
    && (forall n :: !Taken(n, keepsRoot) ==> d.now(n) == was.now(n) && d.may(n) == was.may(n))
  }

  /** A home a leave has got some way through. */
  ghost predicate Leaving(was: Disk, d: Disk, gone: seq<Name>) {
    forall n ::
      && was.may(n) <= d.may(n) <= was.may(n) + {Absent}
      && (d.now(n) == was.now(n) || (n in gone && d.now(n) == Absent))
      && (n !in gone ==> d.may(n) == was.may(n))
  }

  lemma LeavingStep(was: Disk, d: Disk, gone: seq<Name>, n: Name)
    requires Leaving(was, d, gone) && n in gone
    ensures Leaving(was, Become(d, n, Absent), gone)
  {}

  /** Remove some names, one after another. */
  method RemoveAll(home: Home, gone: seq<Name>) returns (ok: bool)
    requires Whole(home.disk) && forall i :: 0 <= i < |gone| ==> !gone[i].Temp?
    modifies home
    ensures Whole(home.disk) && old(home.seen) <= home.seen
    ensures Leaving(old(home.disk), home.disk, gone)
    ensures forall k :: |old(home.seen)| <= k < |home.seen| ==> Leaving(old(home.disk), home.seen[k], gone)
    ensures ok ==> forall n :: n in gone ==> home.disk.now(n) == Absent
  {
    ghost var was, from := home.disk, |home.seen|;
    for i := 0 to |gone|
      invariant Whole(home.disk) && old(home.seen) <= home.seen
      invariant Leaving(was, home.disk, gone)
      invariant forall k :: 0 <= k < i ==> home.disk.now(gone[k]) == Absent
      invariant forall k :: from <= k < |home.seen| ==> Leaving(was, home.seen[k], gone)
    {
      LeavingStep(was, home.disk, gone, gone[i]);
      ok := home.Remove(gone[i]);
      if !ok { return; }
    }
    ok := true;
  }

  /** `leave`, `keepsRoot` being what the home answered when asked. */
  method DoLeave(home: Home, keepsRoot: Option<bool>) returns (ok: bool)
    requires Whole(home.disk)
    modifies home
    ensures Whole(home.disk) && old(home.seen) <= home.seen
    ensures keepsRoot == None ==> !ok && home.disk == old(home.disk)
    ensures keepsRoot.Some? && old(home.disk).now(RootPub) != Absent ==>
              forall i :: |old(home.seen)| <= i < |home.seen| ==>
                && PinOutlasts(home.seen[i], keepsRoot.value)
                && (home.seen[i].now(RootPub) == Absent || home.seen[i].now(RootPub) == old(home.disk).now(RootPub))
                && (home.seen[i].now(KeyCert) == Absent || home.seen[i].now(KeyCert) == old(home.disk).now(KeyCert))
    ensures keepsRoot.Some? && old(home.disk).now(RootPub) != Absent ==> PinOutlasts(home.disk, keepsRoot.value)
    ensures ok ==> Left(old(home.disk), home.disk, keepsRoot.value) && PinOutlasts(home.disk, keepsRoot.value)
  {
    if keepsRoot.None? { return false; }
    GoesTaken(keepsRoot.value);
    ok := RemoveAll(home, Goes(keepsRoot.value));
    if !ok { return; }
    ok := home.Remove(RootPub);
  }

  /** No sync stands between the removals, so a power loss may undo them in any order: a leave's promise is for
      a process that stops, not for the disk. After one that went through, the standing may be found with the
      pin gone exactly when the home before it may have shown that standing. */
  lemma LeaveNotOrderedOnDisk(was: Disk, d: Disk, keepsRoot: bool, standing: Content)
    requires Whole(was) && Whole(d) && Left(was, d, keepsRoot)
    ensures (exists image :: CrashOf(d, image) && image(RootPub) == None && image(KeyCert) == Some(standing))
            <==> File(standing, true) in was.may(KeyCert)
  {
    if File(standing, true) in was.may(KeyCert) {
      assert d.now(RootPub) in d.may(RootPub);
      CrashImageIs(d, RootPub, None, KeyCert, Some(standing));
      var image := CrashImage(d, RootPub, None, KeyCert, Some(standing));
      assert image(RootPub) == None && image(KeyCert) == Some(standing);
    }
    if image :| CrashOf(d, image) && image(RootPub) == None && image(KeyCert) == Some(standing) {
      assert Leaves(d.may(KeyCert), image(KeyCert));
    }
  }
}
