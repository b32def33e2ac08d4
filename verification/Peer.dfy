/** A peer to dial, resolved against the book to exactly one machine, and a root learned from a machine. */
module Peer {
  import opened Wrappers
  import opened Order
  import opened Contacts

  datatype Kind = Yours | Link | Contact | Bare

  datatype Machine = Machine(key: Key, name: Option<Ref>, kind: Kind, picked: Option<string>)

  /** A peer as typed: a name, a key, a link with the machine it dials if that is a usable key, a root's key. */
  datatype Typed = Named(at: Ref) | Raw(key: Key) | Capability(dials: Option<Key>) | Root(root: Key)

  datatype Whose = YourRoot(devices: set<string>) | PersonsRoot(person: string, machines: set<string>) | Unknown

  datatype MachineError =
    | Several(person: string, machines: set<string>)
    | NoneSaved(person: string)
    | NotSaved(person: string)
    | WhichOfYours(yours: set<string>)
    | YourDevice(device: string)
    | NotYours(device: string, yours: set<string>)
    | NotTheirs(person: string, device: string, machines: set<string>)
    | UnusableLink
    | ARoot(whose: Whose)

  function Devices(people: People, person: string): map<string, Binding> { OrNew(people, person).devices }

  /** `Whose::of`, `yours` being the root this machine trusts. */
  function WhoseRoot(people: People, yours: Option<Key>, root: Key): Whose {
    if yours == Some(root) then YourRoot(Devices(people, ME).Keys)
    else match SavedRootOf(people, root)
      case Some(person) => PersonsRoot(person, Devices(people, person).Keys)
      case None => Unknown
  }

  /** `Machine::saved`: the kind is read from where the book saves the key. */
  function AsSaved(people: People, key: Key): Machine {
    var name := SavedAt(people, key);
    Machine(key, name,
            match name case None => Bare case Some(at) => if at.petname == ME then Yours else Contact, None)
  }

  function ByName(people: People, at: Ref): Result<Machine, MachineError> {
    var devices := Devices(people, at.petname);
    match at.device
    case Some(d) =>
      if at.petname == ME then
        if d in devices then Ok(AsSaved(people, devices[d].node)) else Err(NotYours(d, devices.Keys))
      else if at.petname !in people then Err(NotSaved(at.petname))
      else if d in devices then Ok(AsSaved(people, devices[d].node))
      else Err(NotTheirs(at.petname, d, devices.Keys))
    case None =>
      if at.petname == ME then Err(WhichOfYours(devices.Keys))
      else if at.petname !in people then
        if at.petname in Devices(people, ME) then Err(YourDevice(at.petname)) else Err(NotSaved(at.petname))
      else if devices == map[] then Err(NoneSaved(at.petname))
      else if d :| d in devices && devices.Keys == {d} then
        Ok(AsSaved(people, devices[d].node).(picked := Some(at.petname)))
      else Err(Several(at.petname, devices.Keys))
  }

  /** `Peer::machine`. */
  function Resolve(people: People, yours: Option<Key>, peer: Typed): Result<Machine, MachineError> {
    match peer
    case Raw(key) =>
      var whose := WhoseRoot(people, yours, key);
      if whose.Unknown? then Ok(AsSaved(people, key)) else Err(ARoot(whose))
    case Capability(dials) =>
      if dials.None? then Err(UnusableLink)
      else Ok(Machine(dials.value, SavedAt(people, dials.value), Link, None))
    case Named(at) => ByName(people, at)
    case Root(root) => Err(ARoot(WhoseRoot(people, yours, root)))
  }

  /** In any book, a machine's name and its bare key resolve to one machine exactly when the key is no root
      the book knows. */
  lemma NameOrKey(people: People, yours: Option<Key>, at: Ref, key: Key)
    requires at.device.Some? && HeldAt(people, at) == Some(key)
    ensures Resolve(people, yours, Named(at)).Ok? && Resolve(people, yours, Named(at)).value.key == key
    ensures Resolve(people, yours, Raw(key)) == Resolve(people, yours, Named(at))
            <==> yours != Some(key) && forall p: string :: HeldAt(people, Ref(p, None)) != Some(key)
  {
    if yours != Some(key) { KnownRoot(people, key); }
  }

  lemma KnownRoot(people: People, key: Key)
    ensures SavedRootOf(people, key).None? <==> forall p: string :: HeldAt(people, Ref(p, None)) != Some(key)
  {
    var holders := set p | p in people && RootIs(people[p], key);
    if p: string :| HeldAt(people, Ref(p, None)) == Some(key) { assert p in holders; }
    if holders != {} {
      var p :| p in holders;
      assert HeldAt(people, Ref(p, None)) == Some(key);
    }
  }

  /** Where each key has one name, resolving a machine by name gives the name typed and the kind its owner
      makes it; and its bare key resolves alike exactly when it is not your own root. */
  lemma NameAndKeyAgree(people: People, yours: Option<Key>, at: Ref, key: Key)
    requires OneNameAll(people) && at.device.Some? && HeldAt(people, at) == Some(key)
    ensures Resolve(people, yours, Named(at)) ==
            Ok(Machine(key, Some(at), if at.petname == ME then Yours else Contact, None))
    ensures Resolve(people, yours, Raw(key)) == Resolve(people, yours, Named(at)) <==> yours != Some(key)
  {
    SavedAtExact(people, key);
    NameOrKey(people, yours, at, key);
  }

  /** A person typed bare is their one machine, and says so; several or none are never guessed at. */
  lemma BarePerson(people: People, yours: Option<Key>, person: string)
    requires OneNameAll(people) && person != ME && person in people
    ensures Resolve(people, yours, Named(Ref(person, None))).Ok? <==> |people[person].devices| == 1
    ensures forall d :: people[person].devices.Keys == {d} ==>
              Resolve(people, yours, Named(Ref(person, None))) ==
              Ok(Machine(people[person].devices[d].node, Some(Ref(person, Some(d))), Contact, Some(person)))
  {
    var devices := people[person].devices;
    if |devices| == 1 {
      assert |devices.Keys| == 1;
      var d :| d in devices.Keys;
      assert devices.Keys - {d} == {} by { assert |devices.Keys - {d}| == 0; }
      assert devices.Keys == {d};
    }
    forall d | devices.Keys == {d}
      ensures |devices| == 1
      ensures SavedAt(people, devices[d].node) == Some(Ref(person, Some(d)))
    {
      assert d in devices.Keys && |devices.Keys| == 1;
      SavedAtExact(people, devices[d].node);
      assert HeldAt(people, Ref(person, Some(d))) == Some(devices[d].node);
    }
  }

  /** A person's machines, by the names that hold a key. */
  ghost predicate MachinesOf(people: People, person: string, machines: set<string>) {
    forall d :: d in machines <==> HeldAt(people, Ref(person, Some(d))).Some?
  }

  /** A name that is no one machine resolves to an error that says which it is: none of yours, not saved, not theirs,
      which of several, one of your own typed bare; with the machines there are. */
  lemma NoMachine(people: People, yours: Option<Key>, at: Ref)
    requires at.device.Some? ==> HeldAt(people, at).None?
    ensures MachinesOf(people, at.petname, Devices(people, at.petname).Keys)
    ensures var p, ds := at.petname, Devices(people, at.petname).Keys;
            var r := Resolve(people, yours, Named(at));
            match at.device
            case Some(d) =>
              r == Err(if p == ME then NotYours(d, ds) else if p in people then NotTheirs(p, d, ds) else NotSaved(p))
            case None =>
              if p == ME then r == Err(WhichOfYours(ds))
              else if p !in people then
                r == Err(if HeldAt(people, Ref(ME, Some(p))).Some? then YourDevice(p) else NotSaved(p))
              else if ds == {} then r == Err(NoneSaved(p))
              else r == Err(Several(p, ds)) || exists d :: ds == {d}
  {
    if Devices(people, at.petname) != map[] { var d :| d in Devices(people, at.petname); }
  }

  /** A root as it is told of: yours, or the first person's in name order who has it, with the machines there are, or
      nobody's. */
  lemma WhoseExact(people: People, yours: Option<Key>, root: Key)
    ensures match WhoseRoot(people, yours, root)
            case YourRoot(ds) => yours == Some(root) && MachinesOf(people, ME, ds)
            case PersonsRoot(p, ds) =>
              && yours != Some(root) && HeldAt(people, Ref(p, None)) == Some(root) && MachinesOf(people, p, ds)
              && forall q: string :: q != p && HeldAt(people, Ref(q, None)) == Some(root) ==> Less(Codes(p), Codes(q))
            case Unknown => yours != Some(root) && forall q: string :: HeldAt(people, Ref(q, None)) != Some(root)
  {
    KnownRoot(people, root);
    var holders := set p | p in people && RootIs(people[p], root);
    forall q: string | HeldAt(people, Ref(q, None)) == Some(root) ensures q in holders {}
    if holders != {} { assert IsLeast(Least(holders), holders); }
  }

  /** A key, a link and a root, resolved: a key no root is dials that machine, under the name it is saved by if any; a
      link dials what it names; a root dials nothing. */
  lemma KeyExact(people: People, yours: Option<Key>, key: Key)
    ensures var whose := WhoseRoot(people, yours, key);
            && Resolve(people, yours, Raw(key)) ==
               (if !whose.Unknown? then Err(ARoot(whose))
                else match SavedAt(people, key)
                  case None => Ok(Machine(key, None, Bare, None))
                  case Some(at) => Ok(Machine(key, Some(at), if at.petname == ME then Yours else Contact, None)))
            && Resolve(people, yours, Root(key)) == Err(ARoot(whose))
            && Resolve(people, yours, Capability(Some(key))) == Ok(Machine(key, SavedAt(people, key), Link, None))
            && Resolve(people, yours, Capability(None)) == Err(UnusableLink)
  {}

  // --- learning a root from a machine ---

  /** A root a machine showed. */
  datatype Shown = Shown(person: string, device: string, root: Key)

  datatype Found = Offer | Conflict(saved: Key) | Quiet

  /** `Found::of`. */
  function FoundOf(people: People, shown: Shown): Found {
    if SeenRoot(people, shown.person, shown.device) == Some(shown.root) then Quiet
    else match Signet(people, shown.person)
      case Some(saved) => if saved.node == shown.root then Quiet else Conflict(saved.node)
      case None => if SavedAt(people, shown.root).Some? then Quiet else Offer
  }

  /** What is offered can be saved and is new from that machine, and nothing else is offered; a conflict is a
      root that saving would refuse, naming the one held. */
  lemma OfferExact(people: People, shown: Shown)
    ensures FoundOf(people, shown) == Offer <==>
              && SeenRoot(people, shown.person, shown.device) != Some(shown.root)
              && Learning(people, shown.person, shown.root, shown.device).said.Ok?
    ensures FoundOf(people, shown).Conflict? <==>
              && SeenRoot(people, shown.person, shown.device) != Some(shown.root)
              && HeldAt(people, Ref(shown.person, None)).Some?
              && HeldAt(people, Ref(shown.person, None)) != Some(shown.root)
    ensures FoundOf(people, shown).Conflict? ==>
              && HeldAt(people, Ref(shown.person, None)) == Some(FoundOf(people, shown).saved)
              && Learning(people, shown.person, shown.root, shown.device).said
                 == Err(NameTaken(FoundOf(people, shown).saved))
  {}

  /** `learn::save`: the root learned when it can be, and remembered as shown either way. */
  method SaveShown(book: Book, shown: Shown) returns (r: Result<(), Taken>)
    modifies book
    ensures r == Learning(old(book.people), shown.person, shown.root, shown.device).said
    ensures book.people == Seeing(Learning(old(book.people), shown.person, shown.root, shown.device).people,
                                  shown.person, shown.device, shown.root)
    ensures book.yours == old(book.yours)
    ensures FoundOf(old(book.people), shown) == Offer ==>
              r.Ok? && HeldAt(book.people, Ref(shown.person, None)) == Some(shown.root)
  {
    r := book.Learn(shown.person, shown.root, shown.device);
    book.SeeRoot(shown.person, shown.device, shown.root);
  }

  predicate IsSaved(people: People, shown: Shown) { shown.device in Devices(people, shown.person) }

  /** Whether an act leaves what the machine last showed alone: it does not show another root from it, nor take
      it out of the book. */
  predicate LeavesMemory(act: Act, shown: Shown) {
    match act
    case SeeRoot(person, device, root) => person == shown.person && device == shown.device ==> root == shown.root
    case Remove(person, device) => person == shown.person ==> device.Some? && device != Some(shown.device)
    case DeriveMe(_) => shown.person != ME
    case _ => true
  }

  lemma {:induction false} MemoryLasts(people: People, acts: seq<Act>, shown: Shown)
    requires SeenRoot(people, shown.person, shown.device) == Some(shown.root)
    requires forall i :: 0 <= i < |acts| ==> LeavesMemory(acts[i], shown)
    ensures SeenRoot(Run(people, acts), shown.person, shown.device) == Some(shown.root)
    decreases |acts|
  {
    if acts != [] {
      MemoryStep(people, acts[0], shown);
      MemoryLasts(Done(people, acts[0]), acts[1..], shown);
    }
  }

  lemma MemoryStep(people: People, act: Act, shown: Shown)
    requires SeenRoot(people, shown.person, shown.device) == Some(shown.root) && LeavesMemory(act, shown)
    ensures SeenRoot(Done(people, act), shown.person, shown.device) == Some(shown.root)
  {
    match act
    case Save(at, node) => assert HeldAt(people, Ref(shown.person, Some(shown.device))).Some?;
    case Remove(person, device) =>
      if person == shown.person { assert shown.device in (people[person].devices - {device.value}); }
    case _ =>
  }

  /** A root is said once: remembered for a saved machine, it stays quiet through every act until that machine
      shows another or is taken out. For a machine not saved there is no memory, and nothing changes. */
  lemma SaidOnce(people: People, acts: seq<Act>, shown: Shown)
    requires forall i :: 0 <= i < |acts| ==> LeavesMemory(acts[i], shown)
    ensures var told := Seeing(people, shown.person, shown.device, shown.root);
            if IsSaved(people, shown) then FoundOf(Run(told, acts), shown) == Quiet else told == people
  {
    var told := Seeing(people, shown.person, shown.device, shown.root);
    if IsSaved(people, shown) { MemoryLasts(told, acts, shown); }
  }
}
