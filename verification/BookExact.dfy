/** What each act on the address book does, slot by slot: what it writes, what it answers, and that all else stays. */
module BookExact {
  import opened Wrappers
  import opened Order
  import opened Contacts

  /** What a name of the book holds: nothing, a person's root, or a machine. */
  datatype Slot = Free | RootSlot(saved: SavedRoot) | MachineSlot(machine: Binding)

  function SlotAt(people: People, at: Ref): Slot {
    if at.petname !in people then Free
    else
      var p := people[at.petname];
      match at.device
      case None => if p.signet.Some? then RootSlot(p.signet.value) else Free
      case Some(d) => if d in p.devices then MachineSlot(p.devices[d]) else Free
  }

  function KeyOf(slot: Slot): Option<Key> {
    match slot case Free => None case RootSlot(saved) => Some(saved.node) case MachineSlot(m) => Some(m.node)
  }

  /** Every slot but one is as it was. */
  ghost predicate OnlyAt(people: People, next: People, at: Ref) {
    forall b: Ref :: b != at ==> SlotAt(next, b) == SlotAt(people, b)
  }

  /** Who is in a book of nobody empty: whoever has a slot that is not free. */
  lemma InTheBook(people: People, p: string)
    requires NoneEmpty(people)
    ensures p in people <==> exists at: Ref :: at.petname == p && SlotAt(people, at) != Free
  {
    if p in people {
      if people[p].signet.Some? {
        assert SlotAt(people, Ref(p, None)) != Free;
      } else {
        assert people[p].devices != map[];
        var d :| d in people[p].devices;
        assert SlotAt(people, Ref(p, Some(d))) != Free;
      }
    }
  }

  lemma SlotHolds(people: People, at: Ref)
    ensures HeldAt(people, at) == KeyOf(SlotAt(people, at))
  {}

  /** The name a key is found under, exactly: the first person in name order with it, and of theirs the root, or the
      first machine. */
  lemma SavedAtFirst(people: People, key: Key, at: Ref)
    ensures SavedAt(people, key) == Some(at) <==>
              && KeyOf(SlotAt(people, at)) == Some(key)
              && forall b: Ref :: b != at && KeyOf(SlotAt(people, b)) == Some(key) ==>
                   || Less(Codes(at.petname), Codes(b.petname))
                   || (b.petname == at.petname && b.device.Some?
                       && (at.device.None? || Less(Codes(at.device.value), Codes(b.device.value))))
  {
    SavedAtExact(people, key);
    if SavedAt(people, key).Some? {
      var first := SavedAt(people, key).value;
      FirstComes(people, key);
      SlotHolds(people, at);
      if at != first && KeyOf(SlotAt(people, at)) == Some(key) {
        SlotHolds(people, first);
        if Less(Codes(first.petname), Codes(at.petname)) {
          LessAsymmetric(Codes(first.petname), Codes(at.petname));
        } else {
          LessIrreflexive(Codes(at.petname));
          if first.device.Some? { LessAsymmetric(Codes(first.device.value), Codes(at.device.value)); }
        }
      }
    } else {
      SlotHolds(people, at);
    }
  }

  lemma FirstComes(people: People, key: Key)
    requires SavedAt(people, key).Some?
    ensures var at := SavedAt(people, key).value;
            forall b: Ref :: b != at && KeyOf(SlotAt(people, b)) == Some(key) ==>
              || Less(Codes(at.petname), Codes(b.petname))
              || (b.petname == at.petname && b.device.Some?
                  && (at.device.None? || Less(Codes(at.device.value), Codes(b.device.value))))
  {
    var at := SavedAt(people, key).value;
    var holders := set p | p in people && Holds(people[p], key);
    forall b: Ref | b != at && KeyOf(SlotAt(people, b)) == Some(key)
      ensures || Less(Codes(at.petname), Codes(b.petname))
              || (b.petname == at.petname && b.device.Some?
                  && (at.device.None? || Less(Codes(at.device.value), Codes(b.device.value))))
    {
      if b.device.Some? { assert b.device.value in Labels(people[b.petname], key); }
      assert b.petname in holders;
      assert IsLeast(at.petname, holders);
    }
  }

  /** `save`: a free name takes a key no name has; a name that has the key keeps it, a root learned becoming one
      given; and any other is refused, saying what is held. */
  lemma SaveDone(people: People, at: Ref, node: Key)
    ensures var Acted(next, said) := Saving(people, at, node);
            && OnlyAt(people, next, at)
            && match SlotAt(people, at)
               case Free =>
                 if SavedAt(people, node).Some? then
                   next == people && said == Err(KeyTaken(SavedAt(people, node).value))
                 else
                   && said == Ok(Created)
                   && SlotAt(next, at) == (if at.device.None? then RootSlot(SavedRoot(node, Explicit))
                                           else MachineSlot(Binding(node, None)))
               case RootSlot(saved) =>
                 if saved.node != node then next == people && said == Err(NameTaken(saved.node))
                 else
                   && said == Ok(if saved.source.Explicit? then Unchanged else Unlearned)
                   && SlotAt(next, at) == RootSlot(SavedRoot(node, Explicit))
               case MachineSlot(m) =>
                 next == people && said == if m.node == node then Ok(Unchanged) else Err(NameTaken(m.node))
  {}

  /** `learn`: a person without a root takes one no name has, with the machine it came from. */
  lemma LearnDone(people: People, person: string, root: Key, from: string)
    ensures var Acted(next, said) := Learning(people, person, root, from);
            var at := Ref(person, None);
            && OnlyAt(people, next, at)
            && match SlotAt(people, at)
               case Free =>
                 if SavedAt(people, root).Some? then
                   next == people && said == Err(KeyTaken(SavedAt(people, root).value))
                 else said == Ok(()) && SlotAt(next, at) == RootSlot(SavedRoot(root, Learned(from)))
               case RootSlot(saved) => next == people && said == Err(NameTaken(saved.node))
               case _ => false
  {}

  /** `replace_root`: a person with a root takes another that no other name has, and the one before is answered. */
  lemma ReplaceDone(people: People, person: string, root: Key)
    ensures var Acted(next, said) := Replacing(people, person, root);
            var at := Ref(person, None);
            && OnlyAt(people, next, at)
            && (said.Err? ==>
                  && next == people && SavedAt(people, root) == Some(said.error.at)
                  && said.error.at != at)
            && (said.Ok? ==>
                  && (SavedAt(people, root).Some? ==> SavedAt(people, root) == Some(at))
                  && match SlotAt(people, at)
                     case Free => said == Ok(None) && next == people
                     case RootSlot(saved) =>
                       said == Ok(Some(saved.node)) && SlotAt(next, at) == RootSlot(SavedRoot(root, Explicit))
                     case _ => false)
  {}

  /** `see_root`: a machine of the book remembers the root it showed, and nothing else changes. */
  lemma SeeDone(people: People, person: string, device: string, root: Key)
    ensures var next := Seeing(people, person, device, root);
            var at := Ref(person, Some(device));
            && OnlyAt(people, next, at)
            && match SlotAt(people, at)
               case MachineSlot(m) => SlotAt(next, at) == MachineSlot(Binding(m.node, Some(root)))
               case _ => next == people
  {}

  /** `remove`: what was named is free afterwards, every slot of a person or the one machine, and everything else is
      as it was; the answer says whether it was there; and nobody is left empty. */
  lemma RemoveDone(people: People, person: string, device: Option<string>)
    ensures var (next, said) := Removing(people, person, device);
            && (said == Gone <==>
                  if device.None? then person in people else SlotAt(people, Ref(person, device)) != Free)
            && (said == NotThere ==> next == people)
            && (forall b: Ref :: SlotAt(next, b) ==
                  if b.petname == person && (device.None? || b.device == device) then Free else SlotAt(people, b))
            && (device.None? ==> person !in next)
            && (NoneEmpty(people) ==> NoneEmpty(next))
  {
    var next := Removing(people, person, device).0;
    if person in people && device.Some? {
      var devices := people[person].devices;
      forall e | e in devices && e != device.value ensures e in devices - {device.value} {}
    }
  }

  /** `derive_me`: your own devices are those listed, none with a root seen, and nobody else changes. */
  lemma DeriveDone(people: People, mine: Option<map<string, Key>>)
    ensures var next := Deriving(people, mine);
            forall b: Ref :: SlotAt(next, b) ==
              if b.petname != ME then SlotAt(people, b)
              else if mine.Some? && b.device.Some? && b.device.value in mine.value then
                MachineSlot(Binding(mine.value[b.device.value], None))
              else Free
  {}
}
