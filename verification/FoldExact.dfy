/** What a fold leaves in a device's files, said of the update's own lists. */
module FoldExact {
  import opened Wrappers
  import opened Codec
  import opened Roster
  import opened Fold

  /** A list is held when it can be read, fits, and is an update under the pin. */
  lemma HeldExact(r: Rules, list: Option<Bytes>, readable: bool, d: Doc)
    ensures Held(r, list, readable) == Some(d) <==>
              readable && exists b :: list == Some(b) && 0 < |b| <= 7_524_482 && r.update(b) == Some(d)
  {
    assert MAX_ROSTER_BLOB == 7_524_482;
    if readable && list.Some? && Held(r, list, readable) == Some(d) { assert r.update(list.value) == Some(d); }
  }

  /** The update gives this device a standing to take: its own row's, from a list that names neither its key nor the
      standing's id as revoked, bound to it and ending after the one held. */
  predicate Gives(r: Rules, d: Doc, m: Member, until: nat, now: nat) {
    && m in d.members && r.own == Some(m.node) && m.until > until && r.bound(m.standing, now)
    && (forall x :: x in d.revokedDevices ==> x.node != m.node)
    && (forall x :: x in d.revoked ==> r.idOf(m.standing) != Some(x.id))
  }

  lemma RenewalGives(r: Rules, d: Doc, until: nat, now: nat)
    ensures Renewal(r, d, until, now).Some? ==>
              exists m :: Gives(r, d, m, until, now) && m.standing == Renewal(r, d, until, now).value
  {
    if Renewal(r, d, until, now).Some? {
      RowFirst(d.members, r.own.value);
      var m := RowOf(d.members, r.own.value).value;
      ListsKeyIs(d, m.node);
      if r.idOf(m.standing).Some? { ListsIdIs(d, r.idOf(m.standing).value); }
      assert Gives(r, d, m, until, now);
    }
  }

  lemma GivenIsRenewal(r: Rules, f: Foreign, d: Doc, m: Member, until: nat, now: nat)
    requires ValidDoc(f, d) && Gives(r, d, m, until, now)
    ensures Renewal(r, d, until, now) == Some(m.standing)
  {
    OneRow(f, d, m);
    ListsKeyIs(d, m.node);
    if r.idOf(m.standing).Some? { ListsIdIs(d, r.idOf(m.standing).value); }
  }

  /** The standing after a fold: it changes only to one the update gives this device, and only when the update was
      taken; and a well-formed update taken that gives one leaves that one. */
  lemma StandingExact(r: Rules, f: Foreign, h: Home, bytes: Bytes, d: Doc, until: nat, now: nat, look: Access)
    ensures var (h', said) := Folding(r, h, bytes, d, until, now, look);
            && (h'.badge != h.badge ==>
                  said == Newer && exists m :: Gives(r, d, m, until, now) && h'.badge == Some(m.standing))
            && (ValidDoc(f, d) && said == Newer ==>
                  forall m :: Gives(r, d, m, until, now) ==> h'.badge == Some(m.standing))
  {
    RenewalGives(r, d, until, now);
    if ValidDoc(f, d) {
      forall m | Gives(r, d, m, until, now) ensures Renewal(r, d, until, now) == Some(m.standing) {
        GivenIsRenewal(r, f, d, m, until, now);
      }
    }
  }

  /** What a home refuses once it has added what an update revokes: every key listed but its own, and every id listed
      that has not ended. */
  ghost predicate Adds(r: Rules, h: Home, h': Home, d: Doc, now: nat) {
    && (forall k :: k in h'.keys <==>
          k in h.keys || exists x :: x in d.revokedDevices && x.node == k && r.own != Some(k))
    && (forall id :: id in h'.ids <==> id in h.ids || exists x :: x in d.revoked && x.id == id && x.expires > now)
  }

  lemma RevokingAdds(r: Rules, h: Home, d: Doc, now: nat)
    ensures Adds(r, h, Revoking(r, h, d, now), d, now)
  {}

  /** And wherever a fold or a fork passed on stops: nothing more is refused, and the standing is the old one or one
      the update gives. */
  lemma StoppedExact(r: Rules, was: Home, h: Home, bytes: Bytes, d: Doc, until: nat, now: nat, look: Access)
    requires Verified(r, bytes) == Some(d)
    requires Moves(r, was, h, Folds(bytes, until, now, look)) || Moves(r, was, h, Forks(bytes, now, look))
    ensures forall k :: k in h.keys ==>
              k in was.keys || exists x :: x in d.revokedDevices && x.node == k && r.own != Some(k)
    ensures forall id :: id in h.ids ==> id in was.ids || exists x :: x in d.revoked && x.id == id && x.expires > now
    ensures h.badge != was.badge ==> exists m :: Gives(r, d, m, until, now) && h.badge == Some(m.standing)
  {
    RenewalGives(r, d, until, now);
  }

  /** An update holds all that a fork revokes and that has not ended. */
  ghost predicate HoldsAll(d: Doc, fork: Doc, now: nat) {
    && (forall x :: x in fork.revoked && x.expires > now ==> exists y :: y in d.revoked && y.id == x.id)
    && (forall x :: x in fork.revokedDevices ==> exists y :: y in d.revokedDevices && y.node == x.node)
  }

  lemma CarriesExact(d: Doc, fork: Doc, now: nat)
    ensures Carries(d, fork, now) <==> HoldsAll(d, fork, now)
  {
    forall x | x in fork.revoked ensures ListsId(d, x.id) <==> exists y :: y in d.revoked && y.id == x.id {
      ListsIdIs(d, x.id);
    }
    forall x | x in fork.revokedDevices
      ensures ListsKey(d, x.node) <==> exists y :: y in d.revokedDevices && y.node == x.node
    {
      ListsKeyIs(d, x.node);
    }
  }

  /** The fold, whole, by how the update's number stands to that of the update held. Below it, or at 0 with none
      held, nothing changes, nor for the very update held. Another at that number adds to what is refused, and is kept
      where no fork is. A higher one is held, adds too, and the fork kept goes exactly when the update has all of it. */
  lemma FoldExact(r: Rules, h: Home, bytes: Bytes, d: Doc, until: nat, now: nat, look: Access)
    ensures var (h', said) := Folding(r, h, bytes, d, until, now, look);
            var held, fork := Held(r, h.devices, look.devices), Held(r, h.conflict, look.conflict);
            var floor := if held.Some? then held.value.epoch else 0;
            if d.epoch < floor || (d.epoch == 0 && held.None?) then said == NotNewer && h' == h
            else if d.epoch > floor then
              && said == Newer && Adds(r, h, h', d, now) && h'.devices == Some(bytes)
              && h'.conflict == if fork.Some? && HoldsAll(d, fork.value, now) then None else h.conflict
            else if h.devices == Some(bytes) then said == Same && h' == h
            else
              && said == Fork(floor) && Adds(r, h, h', d, now) && h'.devices == h.devices && h'.badge == h.badge
              && h'.conflict == if fork.Some? then h.conflict else Some(bytes)
  {
    RevokingAdds(r, h, d, now);
    if Held(r, h.conflict, look.conflict).Some? { CarriesExact(d, Held(r, h.conflict, look.conflict).value, now); }
  }

  /** A fork passed on, whole: nothing for the update held, or one that update holds all of; else its revocations are
      added, and it is kept unless a fork is. */
  lemma FoldForkExact(r: Rules, h: Home, bytes: Bytes, d: Doc, now: nat, look: Access)
    ensures var h' := FoldingFork(r, h, bytes, d, now, look);
            var held, fork := Held(r, h.devices, look.devices), Held(r, h.conflict, look.conflict);
            if held.Some? && (h.devices == Some(bytes) || HoldsAll(held.value, d, now)) then h' == h
            else
              && Adds(r, h, h', d, now) && h'.devices == h.devices && h'.badge == h.badge
              && h'.conflict == if fork.Some? then h.conflict else Some(bytes)
  {
    RevokingAdds(r, h, d, now);
    if Held(r, h.devices, look.devices).Some? { CarriesExact(Held(r, h.devices, look.devices).value, d, now); }
  }
}
