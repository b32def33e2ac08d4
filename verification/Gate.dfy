/** What `serve`'s gate reads live: the pin, and beside it the rows of the ledger, each a cache that fails to
    nothing. */
module Gate {
  import opened Wrappers
  import opened Text
  import opened Codec
  import opened GrantRecords
  import opened Debounce
  import Ledger
  import opened LedgerAnswers

  /** What reading a trust file gives: its text, or why not. */
  datatype Body = Body(text: string) | Loose(why: nat) | NoRead

  /** What the pin reads as, before the revocations are asked. */
  datatype Reading = NoPin | Unreadable | LooseFile(why: nat) | Malformed | Revoked | Pinned(key: Key)

  /** `one_key`: exactly one key and nothing else. */
  function OneKey(parse: string -> Option<Key>, text: string): Option<Key> {
    if |Lines(Trim(text))| != 1 then None else parse(Trim(text))
  }

  /** A key is taken from a text exactly when the text, trimmed, is one line and that line is the key's. */
  lemma OneKeyExact(parse: string -> Option<Key>, text: string, key: Key)
    ensures OneKey(parse, text) == Some(key) <==>
              Trim(text) != [] && Lacks(Trim(text), NL) && parse(Trim(text)) == Some(key)
  {
    OneLine(Trim(text));
    TrimClean(text);
  }

  /** A text that does not end in a newline is one line when it holds no newline and is not empty. */
  lemma OneLine(t: string)
    ensures t == [] || t[|t| - 1] != NL ==> (|Lines(t)| == 1 <==> t != [] && Lacks(t, NL))
  {
    if t != [] && t[|t| - 1] != NL {
      TailEmpty(t, NL);
      if Lacks(t, NL) { SplitPiece(t, NL, []); }
      if i :| 0 <= i < |t| && t[i] == NL { assert Find(t, NL) < |t|; }
    }
  }

  function ReadPin(parse: string -> Option<Key>, body: Body): Reading {
    match body
    case Body(text) => (match OneKey(parse, text) case Some(key) => Pinned(key) case None => Reading.Malformed)
    case Loose(why) => LooseFile(why)
    case NoRead => Unreadable
  }

  function PinPolicy(parse: string -> Option<Key>): Policy<Body, Reading> {
    Policy(NoPin, Unreadable, b => ReadPin(parse, b), (b: Body) => b.Body?)
  }

  function Judged(read: Reading, revoked: set<Key>): Reading {
    if read.Pinned? && read.key in revoked then Revoked else read
  }

  function Admits(reading: Reading): Option<Key> { if reading.Pinned? then Some(reading.key) else None }

  class FilePin {
    const parse: string -> Option<Key>
    const debounce: nat
    const admit: Option<Key>
    var read: Reading
    var stamp: Option<Stamp>
    var lastStat: Option<nat>
    var logged: Option<Reading>

    ghost function Held(): Cache<Reading>
      reads this
    {
      Cache(read, stamp, lastStat)
    }

    constructor (p: string -> Option<Key>, every: nat, admitted: Option<Key>)
      ensures parse == p && debounce == every && admit == admitted
      ensures Held() == Cache(NoPin, None, None)
    {
      parse, debounce, admit := p, every, admitted;
      read, stamp, lastStat, logged := NoPin, None, None, None;
    }

    /** `refresh`: every failure replaces what was held. */
    method Refresh(look: Look<Body>, revoked: set<Key>) returns (reading: Reading)
      modifies this`read, this`stamp, this`lastStat
      ensures Held() == CacheNext(PinPolicy(parse), debounce, old(Held()), look)
      ensures reading == Judged(read, revoked)
    {
      if lastStat.None? || look.now >= lastStat.value + debounce {
        lastStat := Some(look.now);
        match look.stat
        case NotFound => stamp, read := None, NoPin;
        case StatFailed => stamp, read := None, Unreadable;
        case Stamped(s) =>
          if !Unchanged(stamp, s) {
            match look.read
            case Body(text) =>
              stamp := s;
              var key := OneKey(parse, text);
              read := if key.Some? then Pinned(key.value) else Reading.Malformed;
            case Loose(why) => stamp, read := None, LooseFile(why);
            case NoRead => stamp, read := None, Unreadable;
          }
      }
      return if read.Pinned? && read.key in revoked then Revoked else read;
    }

    /** `current`: the root admitted for this run when there is one, else the pin as it reads now. */
    method Current(look: Look<Body>, revoked: set<Key>) returns (key: Option<Key>)
      modifies this
      ensures admit.Some? ==> Held() == old(Held()) && key == if admit.value in revoked then None else admit
      ensures admit.None? ==>
                && Held() == CacheNext(PinPolicy(parse), debounce, old(Held()), look)
                && key == Admits(Judged(read, revoked))
    {
      if admit.Some? { return if admit.value in revoked then None else admit; }
      var reading := Refresh(look, revoked);
      if logged != Some(reading) { logged := Some(reading); }
      return Admits(reading);
    }
  }

  // --- over any run of asks ---

  /** Asks made one after another, each answering for the file as it stands. */
  ghost predicate HonestRun<B(!new), T>(p: Policy<B, T>, h: History<B>, looks: seq<Look<B>>, clock: nat)
    decreases |looks|
  {
    looks != [] ==>
      && clock <= looks[0].now
      && Honest(p, h, looks[0])
      && HonestRun(p, h, looks[1..], looks[0].later)
  }

  function CacheAfter<B, T>(p: Policy<B, T>, debounce: nat, c: Cache<T>, looks: seq<Look<B>>): Cache<T>
    decreases |looks|
  {
    if looks == [] then c else CacheAfter(p, debounce, CacheNext(p, debounce, c, looks[0]), looks[1..])
  }

  /** The looks of a run that come to a read. */
  function ReadsOf<B, T>(p: Policy<B, T>, debounce: nat, c: Cache<T>, looks: seq<Look<B>>): seq<Look<B>>
    decreases |looks|
  {
    if looks == [] then []
    else
      ReadBy(debounce, c.lastStat, c.stamp, looks[0])
      + ReadsOf(p, debounce, CacheNext(p, debounce, c, looks[0]), looks[1..])
  }

  lemma {:induction false} RunFresh<B(!new), T>(
    p: Policy<B, T>, debounce: nat, h: History<B>, c: Cache<T>, made: seq<Look<B>>, looks: seq<Look<B>>, clock: nat)
    requires Stamps(h) && Fresh(p, h, c, made, clock) && HonestRun(p, h, looks, clock)
    ensures Fresh(p, h, CacheAfter(p, debounce, c, looks), made + ReadsOf(p, debounce, c, looks), Clock(looks, clock))
    decreases |looks|
  {
    if looks == [] {
      assert made + [] == made;
    } else {
      var here, next := ReadBy(debounce, c.lastStat, c.stamp, looks[0]), CacheNext(p, debounce, c, looks[0]);
      RefreshFresh(p, debounce, h, c, made, looks[0], clock);
      RunFresh(p, debounce, h, next, made + here, looks[1..], looks[0].later);
      Chain(made, here, ReadsOf(p, debounce, next, looks[1..]));
    }
  }

  /** What a reader that held nothing answers to an ask, some looks before it. */
  function Answer<B, T>(p: Policy<B, T>, debounce: nat, none: T, looks: seq<Look<B>>, ask: Look<B>): T {
    CacheNext(p, debounce, CacheAfter(p, debounce, Cache(none, None, None), looks), ask).held
  }

  /** The reads it made to come to that. */
  function ReadsTo<B, T>(p: Policy<B, T>, debounce: nat, none: T, looks: seq<Look<B>>, ask: Look<B>): seq<Look<B>> {
    var start := Cache(none, None, None);
    var c := CacheAfter(p, debounce, start, looks);
    ReadsOf(p, debounce, start, looks) + ReadBy(debounce, c.lastStat, c.stamp, ask)
  }

  /** Looks and an ask, one after another, each answering for a file whose stamps stand for its versions. */
  ghost predicate HonestAsk<B(!new), T>(p: Policy<B, T>, h: History<B>, looks: seq<Look<B>>, ask: Look<B>) {
    Stamps(h) && HonestRun(p, h, looks, 0) && Honest(p, h, ask) && Clock(looks, 0) <= ask.now
  }

  /** An answer a direct read gives at some moment less than a debounce before an ask, or during it. */
  ghost predicate DirectNear<B(!new), T>(p: Policy<B, T>, debounce: nat, h: History<B>, answer: T, ask: Look<B>) {
    exists t: nat :: ask.now < t + debounce && t <= ask.later && answer == Direct(p, h(t))
  }

  lemma FreshIsNear<B(!new), T>(
    p: Policy<B, T>, debounce: nat, h: History<B>, c: Cache<T>, made: seq<Look<B>>, ask: Look<B>)
    requires Fresh(p, h, c, made, ask.later) && !Due(c.lastStat, ask.now, debounce)
    ensures || DirectNear(p, debounce, h, c.held, ask)
            || (exists m :: m in made && ask.now < m.now + debounce && Astray(p, h, m) && c.held == p.of(m.read))
  {
    if t: nat :| c.lastStat.value <= t <= ask.later && c.held == Direct(p, h(t)) {
      assert ask.now < t + debounce;
    } else {
      var m :| m in made && m.now == c.lastStat.value && Astray(p, h, m) && c.held == p.of(m.read);
      assert ask.now < m.now + debounce;
    }
  }

  /** A cached reader refines a direct one: after any run of asks, the answer to one more is what a direct read
      gives at some moment less than a debounce before it or during it; or it is what a read the reader made that
      near gave, and that read went astray. */
  lemma CacheRefinesDirect<B(!new), T>(
    p: Policy<B, T>, debounce: nat, h: History<B>, none: T, looks: seq<Look<B>>, ask: Look<B>)
    requires HonestAsk(p, h, looks, ask) && debounce > 0
    ensures var answer := Answer(p, debounce, none, looks, ask);
            || DirectNear(p, debounce, h, answer, ask)
            || (exists m :: m in ReadsTo(p, debounce, none, looks, ask) && ask.now < m.now + debounce
                            && Astray(p, h, m) && answer == p.of(m.read))
  {
    var start := Cache(none, None, None);
    var c, made := CacheAfter(p, debounce, start, looks), ReadsOf(p, debounce, start, looks);
    RunFresh(p, debounce, h, start, [], looks, 0);
    assert [] + made == made;
    RefreshFresh(p, debounce, h, c, made, ask, Clock(looks, 0));
    var d := CacheNext(p, debounce, c, ask);
    assert !Due(d.lastStat, ask.now, debounce);
    FreshIsNear(p, debounce, h, d, made + ReadBy(debounce, c.lastStat, c.stamp, ask), ask);
  }

  /** No read the reader made less than a debounce before an ask, or at it, went astray. */
  ghost predicate ReadsWell<B(!new), T>(
    p: Policy<B, T>, debounce: nat, h: History<B>, none: T, looks: seq<Look<B>>, ask: Look<B>)
  {
    forall m | m in ReadsTo(p, debounce, none, looks, ask) && ask.now < m.now + debounce :: !Astray(p, h, m)
  }

  /** So while reads go well every answer is a direct one. */
  lemma ReadsKeepDirect<B(!new), T>(
    p: Policy<B, T>, debounce: nat, h: History<B>, none: T, looks: seq<Look<B>>, ask: Look<B>)
    requires HonestAsk(p, h, looks, ask) && debounce > 0 && ReadsWell(p, debounce, h, none, looks, ask)
    ensures DirectNear(p, debounce, h, Answer(p, debounce, none, looks, ask), ask)
  {
    CacheRefinesDirect(p, debounce, h, none, looks, ask);
  }

  /** What the gate takes for its pin at an ask, the revocations asked too. */
  function PinAt(
    parse: string -> Option<Key>, debounce: nat, looks: seq<Look<Body>>, ask: Look<Body>, revoked: set<Key>)
    : Option<Key>
  {
    Admits(Judged(Answer(PinPolicy(parse), debounce, NoPin, looks, ask), revoked))
  }

  /** The pin: a root is admitted only if the file was exactly that key, readable and not loose, at a moment no
      older than the debounce, and the key is not revoked now. */
  lemma PinIsCurrent(
    parse: string -> Option<Key>, debounce: nat, h: History<Body>, looks: seq<Look<Body>>, ask: Look<Body>,
    revoked: set<Key>, key: Key)
    requires HonestAsk(PinPolicy(parse), h, looks, ask) && debounce > 0
    requires PinAt(parse, debounce, looks, ask, revoked) == Some(key)
    ensures key !in revoked
    ensures exists t: nat :: ask.now < t + debounce && t <= ask.later && NamesOnly(parse, h(t), key)
  {
    var p := PinPolicy(parse);
    CacheRefinesDirect(p, debounce, h, NoPin, looks, ask);
    var held := Answer(p, debounce, NoPin, looks, ask);
    var t: nat :| ask.now < t + debounce && t <= ask.later && held == Direct(p, h(t));
    OneKeyExact(parse, h(t).body.text, key);
    assert NamesOnly(parse, h(t), key);
  }

  /** So a file of several lines, or of anything but one key, for as long as the debounce has no root admitted. */
  lemma OthersAdmitNothing(
    parse: string -> Option<Key>, debounce: nat, h: History<Body>, looks: seq<Look<Body>>, ask: Look<Body>,
    revoked: set<Key>)
    requires HonestAsk(PinPolicy(parse), h, looks, ask) && debounce > 0
    requires forall t: nat | ask.now < t + debounce && t <= ask.later ::
               h(t).There? && h(t).body.Body? ==>
                 Trim(h(t).body.text) == [] || !Lacks(Trim(h(t).body.text), NL) || parse(Trim(h(t).body.text)) == None
    ensures PinAt(parse, debounce, looks, ask, revoked) == None
  {
    var pin := PinAt(parse, debounce, looks, ask, revoked);
    if pin.Some? { PinIsCurrent(parse, debounce, h, looks, ask, revoked, pin.value); }
  }

  /** And the other way: a file that is exactly one key for as long as the debounce, and is read well, has that key
      admitted, exactly when it is not revoked now. */
  lemma PinIsAdmitted(
    parse: string -> Option<Key>, debounce: nat, h: History<Body>, looks: seq<Look<Body>>, ask: Look<Body>,
    revoked: set<Key>, key: Key)
    requires HonestAsk(PinPolicy(parse), h, looks, ask) && debounce > 0
    requires ReadsWell(PinPolicy(parse), debounce, h, NoPin, looks, ask)
    requires forall t: nat | ask.now < t + debounce && t <= ask.later :: NamesOnly(parse, h(t), key)
    ensures PinAt(parse, debounce, looks, ask, revoked) == if key in revoked then None else Some(key)
  {
    var p := PinPolicy(parse);
    ReadsKeepDirect(p, debounce, h, NoPin, looks, ask);
    var held := Answer(p, debounce, NoPin, looks, ask);
    var t: nat :| ask.now < t + debounce && t <= ask.later && held == Direct(p, h(t));
    assert NamesOnly(parse, h(t), key);
    OneKeyExact(parse, h(t).body.text, key);
  }

  /** The file is one line, spaces about it aside, and that line is the key's. */
  predicate NamesOnly(parse: string -> Option<Key>, f: FileAt<Body>, key: Key) {
    && f.There? && f.body.Body?
    && var line := Trim(f.body.text);
       line != [] && Lacks(line, NL) && parse(line) == Some(key)
  }

  /** A look that finds anything but one key yields no pin, whatever was held before. */
  lemma NoEarlierPin(
    parse: string -> Option<Key>, debounce: nat, c: Cache<Reading>, look: Look<Body>, revoked: set<Key>)
    requires Due(c.lastStat, look.now, debounce)
    requires || look.stat.NotFound? || look.stat.StatFailed?
             || (&& !Unchanged(c.stamp, look.stat.stamp)
                 && (look.read.Body? ==>
                       var line := Trim(look.read.text);
                       line == [] || !Lacks(line, NL) || parse(line).None?))
    ensures Admits(Judged(CacheNext(PinPolicy(parse), debounce, c, look).held, revoked)) == None
  {
    if look.read.Body? && OneKey(parse, look.read.text).Some? {
      OneKeyExact(parse, look.read.text, OneKey(parse, look.read.text).value);
    }
  }

  // --- the ledger's rows, the same way ---

  function LedgerPolicy(v: Vocabulary): Policy<Option<string>, map<Bytes, Ledger.Issued>> {
    Policy(map[], map[], b => LedgerRows(v, b), (b: Option<string>) => b.Some?)
  }

  function LedgerRows(v: Vocabulary, body: Option<string>): map<Bytes, Ledger.Issued> {
    match body case Some(text) => Ledger.RowsOf(RecordsIn(v, text)) case None => map[]
  }

  /** The ledger's refresh is that cache: what the gate's rows become on a look, its one-use memory aside. */
  method LedgerRefresh(ledger: Ledger.IssuedLedger, look: Look<Option<string>>)
    modifies ledger
    ensures Cache(ledger.rows, ledger.stamp, ledger.lastStat) ==
            CacheNext(LedgerPolicy(ledger.vocabulary), ledger.debounce,
                      old(Cache(ledger.rows, ledger.stamp, ledger.lastStat)), look)
  {
    ledger.Refresh(look.now, look.stat, look.read);
  }

  /** The rows the gate admits by are the rows of the file at a moment no older than the debounce; or there are none,
      and a read made that near went astray. */
  lemma LedgerIsCurrent(
    v: Vocabulary, debounce: nat, h: History<Option<string>>, looks: seq<Look<Option<string>>>,
    ask: Look<Option<string>>)
    requires HonestAsk(LedgerPolicy(v), h, looks, ask) && debounce > 0
    ensures var p := LedgerPolicy(v);
            var rows := Answer(p, debounce, map[], looks, ask);
            || DirectNear(p, debounce, h, rows, ask)
            || (rows == map[] && !ReadsWell(p, debounce, h, map[], looks, ask))
  {
    CacheRefinesDirect(LedgerPolicy(v), debounce, h, map[], looks, ask);
  }

  /** A row the gate asks of is, at a moment that near, the last the file had of its id. */
  lemma RowIsTheFiles(
    v: Vocabulary, debounce: nat, h: History<Option<string>>, looks: seq<Look<Option<string>>>,
    ask: Look<Option<string>>, id: Bytes)
    requires HonestAsk(LedgerPolicy(v), h, looks, ask) && debounce > 0
    requires id in Answer(LedgerPolicy(v), debounce, map[], looks, ask)
    ensures exists t: nat, i :: ask.now < t + debounce && t <= ask.later && h(t).There? && h(t).body.Some?
              && LastAt(RecordsIn(v, h(t).body.value), id, i)
              && var r := RecordsIn(v, h(t).body.value)[i];
                 Answer(LedgerPolicy(v), debounce, map[], looks, ask)[id]
                 == Ledger.Issued(r.target, r.serves, r.kind.Once?)
  {
    var p := LedgerPolicy(v);
    var rows := Answer(p, debounce, map[], looks, ask);
    LedgerIsCurrent(v, debounce, h, looks, ask);
    var t: nat :| ask.now < t + debounce && t <= ask.later && rows == Direct(p, h(t));
    var rs := RecordsIn(v, h(t).body.value);
    RowsAreLast(rs, id);
    var i :| LastAt(rs, id, i);
  }

  /** And a row that is the last the file has of its id for as long as the debounce, read well, is one it asks of. */
  lemma RowIsHeld(
    v: Vocabulary, debounce: nat, h: History<Option<string>>, looks: seq<Look<Option<string>>>,
    ask: Look<Option<string>>, id: Bytes, r: Record)
    requires HonestAsk(LedgerPolicy(v), h, looks, ask) && debounce > 0
    requires ReadsWell(LedgerPolicy(v), debounce, h, map[], looks, ask)
    requires forall t: nat | ask.now < t + debounce && t <= ask.later :: HoldsLast(v, h(t), id, r)
    ensures var rows := Answer(LedgerPolicy(v), debounce, map[], looks, ask);
            id in rows && rows[id] == Ledger.Issued(r.target, r.serves, r.kind.Once?)
  {
    var p := LedgerPolicy(v);
    var rows := Answer(p, debounce, map[], looks, ask);
    LedgerIsCurrent(v, debounce, h, looks, ask);
    var t: nat :| ask.now < t + debounce && t <= ask.later && rows == Direct(p, h(t));
    assert HoldsLast(v, h(t), id, r);
    var rs := RecordsIn(v, h(t).body.value);
    RowsAreLast(rs, id);
  }

  /** The file's last row of an id is this one. */
  ghost predicate HoldsLast(v: Vocabulary, f: FileAt<Option<string>>, id: Bytes, r: Record) {
    && f.There? && f.body.Some?
    && exists i :: LastAt(RecordsIn(v, f.body.value), id, i) && RecordsIn(v, f.body.value)[i] == r
  }
}
