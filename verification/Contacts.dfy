/** The address book: petnames mapped to their machines and their root, and the acts that change it. */
module Contacts {
  import opened Wrappers
  import opened Order

  const ME := "me"

  datatype Ref = Ref(petname: string, device: Option<string>)

  /** One machine: its key, and the root it was last seen to present. */
  datatype Binding = Binding(node: Key, seenRoot: Option<Key>)

  datatype Source = Explicit | Learned(from: string)
  datatype SavedRoot = SavedRoot(node: Key, source: Source)
  datatype Person = Person(devices: map<string, Binding>, signet: Option<SavedRoot>)

  type People = map<string, Person>

  datatype Saved = Created | Unchanged | Unlearned
  datatype Taken = NameTaken(held: Key) | KeyTaken(at: Ref)
  datatype Removed = Gone | NotThere

  const NOBODY := Person(map[], None)

  predicate Empty(p: Person) { p.devices == map[] && p.signet.None? }

  function OrNew(people: People, name: string): Person { if name in people then people[name] else NOBODY }

  // --- lookups ---

  /** The key a name holds: a person's root, or one machine's key. */
  function HeldAt(people: People, at: Ref): Option<Key> {
    if at.petname !in people then None
    else
      var p := people[at.petname];
      match at.device
      case None => if p.signet.Some? then Some(p.signet.value.node) else None
      case Some(d) => if d in p.devices then Some(p.devices[d].node) else None
  }

  function Labels(p: Person, key: Key): set<string> { set d | d in p.devices && p.devices[d].node == key }

  predicate RootIs(p: Person, key: Key) { p.signet.Some? && p.signet.value.node == key }

  predicate Holds(p: Person, key: Key) { RootIs(p, key) || Labels(p, key) != {} }

  /** `saved_at`: the first person in name order who holds the key, their root looked at before their machines. */
  function SavedAt(people: People, key: Key): Option<Ref> {
    var holders := set p | p in people && Holds(people[p], key);
    if holders == {} then None
    else
      var p := Least(holders);
      Some(Ref(p, if RootIs(people[p], key) then None else Some(Least(Labels(people[p], key)))))
  }

  function SavedRootOf(people: People, key: Key): Option<string> {
    var holders := set p | p in people && RootIs(people[p], key);
    if holders == {} then None else Some(Least(holders))
  }

  function Signet(people: People, person: string): Option<SavedRoot> {
    if person in people then people[person].signet else None
  }

  function SeenRoot(people: People, person: string, device: string): Option<Key> {
    if person in people && device in people[person].devices then people[person].devices[device].seenRoot else None
  }

  /** `saved_at` answers a name that holds the key, and answers none only when no name does. */
  lemma SavedAtExact(people: People, key: Key)
    ensures SavedAt(people, key).Some? ==> HeldAt(people, SavedAt(people, key).value) == Some(key)
    ensures SavedAt(people, key).None? <==> forall at :: HeldAt(people, at) != Some(key)
  {
    var holders := set p | p in people && Holds(people[p], key);
    if at :| HeldAt(people, at) == Some(key) {
      if at.device.Some? { assert at.device.value in Labels(people[at.petname], key); }
      assert at.petname in holders;
    }
    if holders != {} {
      var p := Least(holders);
      if !RootIs(people[p], key) { assert Least(Labels(people[p], key)) in Labels(people[p], key); }
      assert HeldAt(people, SavedAt(people, key).value) == Some(key);
    }
  }

  // --- the acts, as functions of the book ---

  /** The book after an act, and what the act answered. */
  datatype Acted<T, E> = Acted(people: People, said: Result<T, E>)

  function Put(people: People, at: Ref, node: Key): People {
    var p := OrNew(people, at.petname);
    people[at.petname := match at.device
                         case None => p.(signet := Some(SavedRoot(node, Explicit)))
                         case Some(d) => p.(devices := p.devices[d := Binding(node, None)])]
  }

  function Saving(people: People, at: Ref, node: Key): Acted<Saved, Taken> {
    match HeldAt(people, at)
    case Some(held) =>
      if held != node then Acted(people, Err(NameTaken(held)))
      else if at.device.Some? || people[at.petname].signet.value.source == Explicit then Acted(people, Ok(Unchanged))
      else Acted(people[at.petname := people[at.petname].(signet := Some(SavedRoot(node, Explicit)))], Ok(Unlearned))
    case None =>
      match SavedAt(people, node)
      case Some(other) => Acted(people, Err(KeyTaken(other)))
      case None => Acted(Put(people, at, node), Ok(Created))
  }

  function Learning(people: People, person: string, root: Key, from: string): Acted<(), Taken> {
    if Signet(people, person).Some? then Acted(people, Err(NameTaken(Signet(people, person).value.node)))
    else match SavedAt(people, root)
      case Some(at) => Acted(people, Err(KeyTaken(at)))
      case None =>
        Acted(people[person := OrNew(people, person).(signet := Some(SavedRoot(root, Learned(from))))], Ok(()))
  }

  function Replacing(people: People, person: string, root: Key): Acted<Option<Key>, Taken> {
    var at := SavedAt(people, root);
    if at.Some? && (at.value.device.Some? || at.value.petname != person) then Acted(people, Err(KeyTaken(at.value)))
    else if Signet(people, person).None? then Acted(people, Ok(None))
    else Acted(people[person := people[person].(signet := Some(SavedRoot(root, Explicit)))],
               Ok(Some(Signet(people, person).value.node)))
  }

  function Seeing(people: People, person: string, device: string, root: Key): People {
    if person in people && device in people[person].devices then
      var p := people[person];
      people[person := p.(devices := p.devices[device := p.devices[device].(seenRoot := Some(root))])]
    else people
  }

  function Removing(people: People, person: string, device: Option<string>): (People, Removed) {
    if person !in people then (people, NotThere)
    else match device
      case None => (people - {person}, Gone)
      case Some(d) =>
        var p := people[person];
        if d !in p.devices then (people, NotThere)
        else
          var left := p.(devices := p.devices - {d});
          (if Empty(left) then people - {person} else people[person := left], Gone)
  }

  /** Your own devices laid down from the list this machine holds, in place of whatever `me` held. */
  function Deriving(people: People, mine: Option<map<string, Key>>): People {
    if mine.None? || mine.value == map[] then people - {ME}
    else people[ME := Person(map d | d in mine.value :: Binding(mine.value[d], None), None)]
  }

  // --- the book itself ---

  class Book {
    var people: People
    var yours: Option<Key>

    constructor ()
      ensures people == map[] && yours == None
    {
      people, yours := map[], None;
    }

    method Save(at: Ref, node: Key) returns (r: Result<Saved, Taken>)
      modifies `people
      ensures Acted(people, r) == Saving(old(people), at, node)
    {
      if at.petname in people {
        var person := people[at.petname];
        match at.device
        case None =>
          if person.signet.Some? {
            var saved := person.signet.value;
            if saved.node != node { return Err(NameTaken(saved.node)); }
            if saved.source == Explicit { return Ok(Unchanged); }
            people := people[at.petname := person.(signet := Some(saved.(source := Explicit)))];
            return Ok(Unlearned);
          }
        case Some(d) =>
          if d in person.devices {
            var held := person.devices[d].node;
            return if held == node then Ok(Unchanged) else Err(NameTaken(held));
          }
      }
      var taken := SavedAt(people, node);
      if taken.Some? { return Err(KeyTaken(taken.value)); }
      people := Put(people, at, node);
      r := Ok(Created);
    }

    method Learn(person: string, root: Key, from: string) returns (r: Result<(), Taken>)
      modifies `people
      ensures Acted(people, r) == Learning(old(people), person, root, from)
    {
      var held := Signet(people, person);
      if held.Some? { return Err(NameTaken(held.value.node)); }
      var at := SavedAt(people, root);
      if at.Some? { return Err(KeyTaken(at.value)); }
      people := people[person := OrNew(people, person).(signet := Some(SavedRoot(root, Learned(from))))];
      r := Ok(());
    }

    method ReplaceRoot(person: string, root: Key) returns (r: Result<Option<Key>, Taken>)
      modifies `people
      ensures Acted(people, r) == Replacing(old(people), person, root)
    {
      var at := SavedAt(people, root);
      if at.Some? && (at.value.device.Some? || at.value.petname != person) { return Err(KeyTaken(at.value)); }
      var saved := Signet(people, person);
      if saved.None? { return Ok(None); }
      people := people[person := people[person].(signet := Some(SavedRoot(root, Explicit)))];
      r := Ok(Some(saved.value.node));
    }

    method SeeRoot(person: string, device: string, root: Key)
      modifies `people
      ensures people == Seeing(old(people), person, device, root)
    {
      if person in people && device in people[person].devices {
        var p := people[person];
        people := people[person := p.(devices := p.devices[device := p.devices[device].(seenRoot := Some(root))])];
      }
    }

    method Remove(person: string, device: Option<string>) returns (r: Removed)
      modifies `people
      ensures (people, r) == Removing(old(people), person, device)
    {
      if person !in people { return NotThere; }
      match device {
        case None => people := people - {person};
        case Some(d) =>
          var p := people[person];
          if d !in p.devices { return NotThere; }
          p := p.(devices := p.devices - {d});
          people := if Empty(p) then people - {person} else people[person := p];
      }
      r := Gone;
    }

    method DeriveMe(mine: Option<map<string, Key>>, root: Option<Key>)
      modifies this
      ensures people == Deriving(old(people), mine) && yours == root
    {
      people := people - {ME};
      yours := root;
      if mine.None? { return; }
      var person := Person(map d | d in mine.value :: Binding(mine.value[d], None), None);
      assert mine.value != map[] ==> !Empty(person) by {
        if d :| d in mine.value { assert d in person.devices; }
      }
      if !Empty(person) { people := people[ME := person]; }
    }
  }

  // --- one key, one name ---

  /** No two names but yours hold one key. */
  ghost predicate OneName(people: People) {
    forall a: Ref, b: Ref ::
      a.petname != ME && b.petname != ME && HeldAt(people, a).Some? && HeldAt(people, a) == HeldAt(people, b)
      ==> a == b
  }

  /** The same, your own devices included. */
  ghost predicate OneNameAll(people: People) {
    forall a: Ref, b: Ref :: HeldAt(people, a).Some? && HeldAt(people, a) == HeldAt(people, b) ==> a == b
  }

  predicate NoneEmpty(people: People) { forall p :: p in people ==> !Empty(people[p]) }

  datatype Act =
    | Save(at: Ref, node: Key)
    | Learn(person: string, root: Key, from: string)
    | ReplaceRoot(person: string, root: Key)
    | SeeRoot(person: string, device: string, root: Key)
    | Remove(person: string, which: Option<string>)
    | DeriveMe(mine: Option<map<string, Key>>)

  function Done(people: People, act: Act): People {
    match act
    case Save(at, node) => Saving(people, at, node).people
    case Learn(person, root, from) => Learning(people, person, root, from).people
    case ReplaceRoot(person, root) => Replacing(people, person, root).people
    case SeeRoot(person, device, root) => Seeing(people, person, device, root)
    case Remove(person, device) => Removing(people, person, device).0
    case DeriveMe(mine) => Deriving(people, mine)
  }

  predicate Refused(people: People, act: Act) {
    match act
    case Save(at, node) => Saving(people, at, node).said.Err?
    case Learn(person, root, from) => Learning(people, person, root, from).said.Err?
    case ReplaceRoot(person, root) => Replacing(people, person, root).said.Err?
    case Remove(person, device) => Removing(people, person, device).1 == NotThere
    case _ => false
  }

  function Run(people: People, acts: seq<Act>): People
    decreases |acts|
  {
    if acts == [] then people else Run(Done(people, acts[0]), acts[1..])
  }

  /** One slot given a key no name held, every other slot as it was. */
  lemma OneSlot(people: People, next: People, at: Ref, key: Key)
    requires OneName(people)
    requires forall b: Ref :: b != at ==> HeldAt(next, b) == HeldAt(people, b)
    requires HeldAt(next, at) == Some(key)
    requires forall b: Ref :: b != at && b.petname != ME ==> HeldAt(people, b) != Some(key)
    ensures OneName(next)
  {}

  /** Nothing gained, perhaps something lost. */
  lemma FewerSlots(people: People, next: People)
    requires OneName(people)
    requires forall b: Ref :: b.petname != ME ==> HeldAt(next, b).None? || HeldAt(next, b) == HeldAt(people, b)
    ensures OneName(next)
  {}

  lemma SaveKeeps(people: People, at: Ref, node: Key)
    requires OneName(people) && NoneEmpty(people)
    ensures var next := Saving(people, at, node).people; OneName(next) && NoneEmpty(next)
  {
    var next := Saving(people, at, node).people;
    SavedAtExact(people, node);
    if Saving(people, at, node).said == Ok(Created) {
      assert HeldAt(next, at) == Some(node);
      OneSlot(people, next, at, node);
    } else {
      FewerSlots(people, next);
    }
  }

  lemma LearnKeeps(people: People, person: string, root: Key, from: string)
    requires OneName(people) && NoneEmpty(people)
    ensures var next := Learning(people, person, root, from).people; OneName(next) && NoneEmpty(next)
  {
    SavedAtExact(people, root);
    var next := Learning(people, person, root, from).people;
    if next != people { OneSlot(people, next, Ref(person, None), root); }
  }

  lemma ReplaceKeeps(people: People, person: string, root: Key)
    requires OneName(people) && NoneEmpty(people)
    ensures var next := Replacing(people, person, root).people; OneName(next) && NoneEmpty(next)
  {
    SavedAtExact(people, root);
    var next := Replacing(people, person, root).people;
    if person == ME || next == people {
      FewerSlots(people, next);
    } else {
      OneSlot(people, next, Ref(person, None), root);
    }
  }

  lemma ActKeeps(people: People, act: Act)
    requires OneName(people) && NoneEmpty(people)
    ensures OneName(Done(people, act)) && NoneEmpty(Done(people, act))
  {
    match act
    case Save(at, node) => SaveKeeps(people, at, node);
    case Learn(person, root, from) => LearnKeeps(people, person, root, from);
    case ReplaceRoot(person, root) => ReplaceKeeps(people, person, root);
    case SeeRoot(person, device, root) => SeeKeeps(people, person, device, root);
    case Remove(person, device) => RemoveKeeps(people, person, device);
    case DeriveMe(mine) => DeriveKeeps(people, mine);
  }

  lemma SeeKeeps(people: People, person: string, device: string, root: Key)
    requires OneName(people) && NoneEmpty(people)
    ensures var next := Seeing(people, person, device, root); OneName(next) && NoneEmpty(next)
  {
    FewerSlots(people, Seeing(people, person, device, root));
  }

  lemma RemoveKeeps(people: People, person: string, device: Option<string>)
    requires OneName(people) && NoneEmpty(people)
    ensures var next := Removing(people, person, device).0; OneName(next) && NoneEmpty(next)
  {
    FewerSlots(people, Removing(people, person, device).0);
  }

  lemma DeriveKeeps(people: People, mine: Option<map<string, Key>>)
    requires OneName(people) && NoneEmpty(people)
    ensures var next := Deriving(people, mine); OneName(next) && NoneEmpty(next)
  {
    var next := Deriving(people, mine);
    FewerSlots(people, next);
    if mine.Some? && mine.value != map[] {
      var d :| d in mine.value;
      assert d in next[ME].devices;
    }
  }

  /** Over any sequence of acts, one key keeps one name among the people who are not you, and nobody is left
      with nothing. */
  lemma {:induction false} RunKeeps(people: People, acts: seq<Act>)
    requires OneName(people) && NoneEmpty(people)
    ensures OneName(Run(people, acts)) && NoneEmpty(Run(people, acts))
    decreases |acts|
  {
    if acts != [] {
      ActKeeps(people, acts[0]);
      RunKeeps(Done(people, acts[0]), acts[1..]);
    }
  }

  /** One key, one name over the whole book, your own devices included, is kept by every act but the laying down
      of your own devices. */
  lemma ActKeepsAll(people: People, act: Act)
    requires OneNameAll(people) && !act.DeriveMe?
    ensures OneNameAll(Done(people, act))
  {
    var next := Done(people, act);
    match act
    case Save(at, node) =>
      SavedAtExact(people, node);
      if Saving(people, at, node).said == Ok(Created) {
        OneSlotAll(people, next, at, node);
      } else {
        FewerSlotsAll(people, next);
      }
    case Learn(person, root, from) =>
      SavedAtExact(people, root);
      if next != people { OneSlotAll(people, next, Ref(person, None), root); }
    case ReplaceRoot(person, root) =>
      SavedAtExact(people, root);
      if next != people { OneSlotAll(people, next, Ref(person, None), root); }
    case SeeRoot(person, device, root) => FewerSlotsAll(people, Seeing(people, person, device, root));
    case Remove(person, device) => FewerSlotsAll(people, Removing(people, person, device).0);
  }

  lemma FewerSlotsAll(people: People, next: People)
    requires OneNameAll(people)
    requires forall b: Ref :: HeldAt(next, b).None? || HeldAt(next, b) == HeldAt(people, b)
    ensures OneNameAll(next)
  {}

  /** One slot given a key no other slot holds, every other slot as it was. */
  lemma OneSlotAll(people: People, next: People, at: Ref, key: Key)
    requires OneNameAll(people)
    requires forall b: Ref :: b != at ==> HeldAt(next, b) == HeldAt(people, b)
    requires HeldAt(next, at) == Some(key)
    requires forall b: Ref :: b != at ==> HeldAt(people, b) != Some(key)
    ensures OneNameAll(next)
  {}

  /** A list of your devices that names each key once. */
  predicate Injective(mine: map<string, Key>) {
    forall d, e :: d in mine && e in mine && mine[d] == mine[e] ==> d == e
  }

  /** Laying down your devices keeps it exactly when no person other than you holds one of their keys. */
  lemma DeriveKeepsAll(people: People, mine: map<string, Key>)
    requires OneName(people) && Injective(mine)
    ensures OneNameAll(Deriving(people, Some(mine))) <==>
            forall d, at: Ref :: d in mine && at.petname != ME ==> HeldAt(people, at) != Some(mine[d])
  {
    var next := Deriving(people, Some(mine));
    DerivedSlots(people, mine);
    if OneNameAll(next) {
      forall d, at: Ref | d in mine && at.petname != ME ensures HeldAt(people, at) != Some(mine[d]) {
        assert HeldAt(next, Ref(ME, Some(d))) == Some(mine[d]) && HeldAt(next, at) == HeldAt(people, at);
      }
    }
    if forall d, at: Ref :: d in mine && at.petname != ME ==> HeldAt(people, at) != Some(mine[d]) {
      forall a: Ref, b: Ref | a.petname == ME && b.petname != ME && HeldAt(next, a).Some?
        ensures HeldAt(next, a) != HeldAt(next, b)
      {
        assert HeldAt(people, b) != Some(mine[a.device.value]);
      }
      forall a: Ref, b: Ref | HeldAt(next, a).Some? && HeldAt(next, a) == HeldAt(next, b) ensures a == b {
        if a.petname == ME && b.petname == ME { assert mine[a.device.value] == mine[b.device.value]; }
      }
    }
  }

  lemma DerivedSlots(people: People, mine: map<string, Key>)
    ensures var next := Deriving(people, Some(mine));
            && (forall at: Ref :: at.petname != ME ==> HeldAt(next, at) == HeldAt(people, at))
            && (forall at: Ref :: at.petname == ME ==>
                  HeldAt(next, at)
                  == if at.device.Some? && at.device.value in mine then Some(mine[at.device.value]) else None)
  {}

  /** A refusal writes nothing, and saving or learning never changes the key a name already holds. */
  lemma RefusalsAndBindings(people: People, act: Act)
    ensures Refused(people, act) ==> Done(people, act) == people
    ensures act.Save? || act.Learn? ==>
              forall at: Ref :: HeldAt(people, at).Some? ==> HeldAt(Done(people, act), at) == HeldAt(people, at)
  {}

  /** A save goes through exactly when the name already holds the key, or neither the name nor the key is
      taken; and then the name holds it. */
  lemma SaveExact(people: People, at: Ref, node: Key)
    ensures Saving(people, at, node).said.Ok? <==>
              || HeldAt(people, at) == Some(node)
              || (HeldAt(people, at).None? && forall other: Ref :: HeldAt(people, other) != Some(node))
    ensures Saving(people, at, node).said.Ok? ==> HeldAt(Saving(people, at, node).people, at) == Some(node)
  {
    SavedAtExact(people, node);
  }
}
