/** What the gate makes of the ledger, and the one-use links it spends: a serving process, the writers of
    `links` beside it, and every way they stop. */
module Ledger {
  import opened Wrappers
  import opened Codec
  import opened Text
  import opened GrantRecords
  import opened AppendLog
  import opened Debounce

  /** One row, as the gate reads it. */
  datatype Issued = Issued(service: string, serves: Option<string>, once: bool)

  /** What a serving process remembers: the rows its last good read found, and the one-use links spent. */
  datatype Memory = Memory(rows: map<Bytes, Issued>, used: set<Bytes>)

  /** What one look at `links` came to. */
  datatype Sighting = Kept | Failed | Gone | Legible(text: string)

  /** Whether this run admits a link to a service, made while its name served something. */
  type Bound = (string, Option<string>) -> bool

  function Row(r: Record): Issued { Issued(r.target, r.serves, r.kind == Once) }

  /** Rows by root id, a later line of one id replacing an earlier. */
  function RowsOf(rs: seq<Record>): map<Bytes, Issued> {
    if rs == [] then map[] else RowsOf(rs[..|rs| - 1])[rs[|rs| - 1].rootId := Row(rs[|rs| - 1])]
  }

  lemma LastRow(rs: seq<Record>, r: Record)
    ensures RowsOf(rs + [r]) == RowsOf(rs)[r.rootId := Row(r)]
  {
    assert (rs + [r])[..|rs|] == rs;
  }

  lemma CollectTurn(v: Vocabulary, lines: seq<string>, i: nat)
    requires i < |lines|
    ensures Collect(v, lines[..i + 1]) == Collect(v, lines[..i]) + LineRecords(v, lines[i])
  {
    assert lines[..i + 1] == lines[..i] + [lines[i]];
    CollectAppend(v, lines[..i], [lines[i]]);
    CollectOne(v, lines[i]);
  }

  lemma RowsMore(rs: seq<Record>, more: seq<Record>)
    requires |more| <= 1
    ensures RowsOf(rs + more) == if more == [] then RowsOf(rs) else RowsOf(rs)[more[0].rootId := Row(more[0])]
  {
    if more == [] {
      assert rs + more == rs;
    } else {
      LastRow(rs, more[0]);
      assert more == [more[0]];
    }
  }

  lemma RowsTurn(v: Vocabulary, lines: seq<string>, i: nat)
    requires i < |lines|
    ensures var was, line := RowsOf(Collect(v, lines[..i])), Trim(lines[i]);
            RowsOf(Collect(v, lines[..i + 1])) ==
            if line == [] || FromLine(v, line).Err? then was
            else was[FromLine(v, line).value.rootId := Row(FromLine(v, line).value)]
  {
    CollectTurn(v, lines, i);
    RowsMore(Collect(v, lines[..i]), LineRecords(v, lines[i]));
  }

  predicate OnceIn(rows: map<Bytes, Issued>, id: Bytes) { id in rows && rows[id].once }

  function Refreshed(v: Vocabulary, m: Memory, look: Sighting): Memory {
    match look
    case Kept => m
    case Failed => m.(rows := map[])
    case Gone => m.(rows := map[])
    case Legible(text) =>
      var rows := RowsOf(RecordsIn(v, text));
      Memory(rows, set id | id in m.used && OnceIn(rows, id))
  }

  /** The ids the lines of `links.used` spell. */
  function SpentIn(lines: seq<string>): set<Bytes> {
    if lines == [] then {}
    else
      var id := FromHex(Trim(lines[0]));
      (if Trim(lines[0]) != [] && id.Some? then {id.value} else {}) + SpentIn(lines[1..])
  }

  function Spent(f: Option<File>): set<Bytes> { SpentIn(Lines(Body(f))) }

  /** What an ask does once the ledger is as fresh as it will be: the memory, the file, and the answer. */
  function Decide(m: Memory, f: Option<File>, bound: Bound, id: Bytes, o: Outcome): (Memory, Option<File>, bool) {
    if id !in m.rows || !bound(m.rows[id].service, m.rows[id].serves) then (m, f, false)
    else if !m.rows[id].once then (m, f, true)
    else if id in m.used then (m, f, false)
    else if Succeeds(f, o) then (m.(used := m.used + {id}), Append(f, ToHex(id), o), true)
    else (m, Append(f, ToHex(id), o), false)
  }

  // --- the serving process, as it is written ---

  /** What the first look comes to, with nothing held before it. */
  function FirstSighting(stat: Stat, read: Option<string>): Sighting {
    match stat
    case NotFound => Gone
    case StatFailed => Failed
    case Stamped(_) => if read.Some? then Legible(read.value) else Failed
  }

  class IssuedLedger {
    const vocabulary: Vocabulary
    const bound: Bound
    const debounce: nat
    const usedFile: LogFile
    var rows: map<Bytes, Issued>
    var used: set<Bytes>
    var stamp: Option<Stamp>
    var lastStat: Option<nat>
    var readable: Option<bool>

    ghost function Held(): Memory
      reads this
    {
      Memory(rows, used)
    }

    /** `IssuedLedger::open` once `links.used` was read: its links spent, and the ledger read once. */
    constructor (v: Vocabulary, b: Bound, every: nat, file: LogFile, now: nat, stat: Stat, read: Option<string>)
      requires Valid(file.file)
      ensures vocabulary == v && bound == b && debounce == every && usedFile == file
      ensures Held() == Refreshed(v, Memory(map[], Spent(file.file)), FirstSighting(stat, read))
      ensures lastStat == Some(now)
    {
      vocabulary, bound, debounce, usedFile := v, b, every, file;
      rows, used, stamp, lastStat, readable := map[], SpentIn(Lines(Body(file.file))), None, None, None;
      new;
      Refresh(now, stat, read);
    }

    /** What one refresh comes to, from the debounce, the stat and the read it makes. */
    ghost function SightingAt(now: nat, stat: Stat, read: Option<string>): Sighting
      reads this
    {
      if !Due(lastStat, now, debounce) then Kept
      else match stat
        case NotFound => Gone
        case StatFailed => Failed
        case Stamped(s) =>
          if Unchanged(stamp, s) then Kept else if read.Some? then Legible(read.value) else Failed
    }

    method Parse(text: string) returns (r: map<Bytes, Issued>)
      ensures r == RowsOf(RecordsIn(vocabulary, text))
    {
      r := map[];
      var lines := Lines(text);
      for i := 0 to |lines|
        invariant r == RowsOf(Collect(vocabulary, lines[..i]))
      {
        RowsTurn(vocabulary, lines, i);
        var line := Trim(lines[i]);
        if line == [] { continue; }
        var record := FromLine(vocabulary, line);
        if record.Err? { continue; }
        r := r[record.value.rootId := Row(record.value)];
      }
      assert lines[..|lines|] == lines;
    }

    /** `refresh`: `stat` and `read` are what the filesystem answers if asked. */
    method Refresh(now: nat, stat: Stat, read: Option<string>)
      modifies this
      ensures Held() == Refreshed(vocabulary, old(Held()), old(SightingAt(now, stat, read)))
      ensures lastStat == if old(Due(lastStat, now, debounce)) then Some(now) else old(lastStat)
      ensures stamp == (match old(SightingAt(now, stat, read))
                        case Kept => old(stamp)
                        case Legible(_) => stat.stamp
                        case _ => None)
      ensures readable == (match old(SightingAt(now, stat, read))
                           case Kept => old(readable)
                           case Failed => Some(false)
                           case _ => Some(true))
    {
      if lastStat.Some? && now < lastStat.value + debounce { return; }
      lastStat := Some(now);
      match stat
      case NotFound => rows, stamp, readable := map[], None, Some(true);
      case StatFailed => rows, stamp, readable := map[], None, Some(false);
      case Stamped(s) =>
        if Unchanged(stamp, s) { return; }
        if read.None? {
          rows, stamp, readable := map[], None, Some(false);
        } else {
          rows := Parse(read.value);
          used := set id | id in used && OnceIn(rows, id);
          stamp, readable := s, Some(true);
        }
    }

    /** `is_issued`. */
    method IsIssued(id: Bytes, now: nat, stat: Stat, read: Option<string>) returns (granted: bool, ghost o: Outcome)
      requires Valid(usedFile.file)
      modifies this, usedFile
      ensures Valid(usedFile.file)
      ensures (Held(), usedFile.file, granted) ==
              Decide(Refreshed(vocabulary, old(Held()), old(SightingAt(now, stat, read))),
                     old(usedFile.file), bound, id, o)
    {
      o := NotOpened;
      Refresh(now, stat, read);
      if id !in rows { return false, o; }
      if !bound(rows[id].service, rows[id].serves) { return false, o; }
      if !rows[id].once { return true, o; }
      if id in used { return false, o; }
      var ok;
      ok, o := usedFile.AppendLine(ToHex(id));
      if !ok { return false, o; }
      used := used + {id};
      return true, o;
    }
  }

  /** `IssuedLedger::open`: a `links.used` that is there and cannot be read leaves no ledger to ask. */
  method OpenLedger(v: Vocabulary, b: Bound, every: nat, file: LogFile, usedReadable: bool,
                    now: nat, stat: Stat, read: Option<string>)
    returns (ledger: IssuedLedger?)
    requires Valid(file.file)
    ensures ledger == null <==> file.file.Some? && !usedReadable
    ensures ledger != null ==>
              && fresh(ledger) && ledger.usedFile == file
              && ledger.Held() == Refreshed(v, Memory(map[], Spent(file.file)), FirstSighting(stat, read))
  {
    if file.file.Some? && !usedReadable { return null; }
    ledger := new IssuedLedger(v, b, every, file, now, stat, read);
  }

  /** A refused ask whose write failed spends nothing in memory, whatever it left in the file. */
  lemma FailedWriteSpendsNothing(m: Memory, f: Option<File>, bound: Bound, id: Bytes, o: Outcome)
    ensures var d := Decide(m, f, bound, id, o);
            && (!d.2 ==> d.0 == m)
            && (!Succeeds(f, o) ==>
                  d.0 == m && d.2 == (id in m.rows && bound(m.rows[id].service, m.rows[id].serves) && !m.rows[id].once))
  {}

  // --- the whole system ---

  /** `links` as it lies: `base`, and so much of the append under way as has landed. `minted` is every root id
      an append was begun for; `used` is `links.used`; `serve` is the serving process, when one runs. */
  datatype World = World(
    base: string, writing: Option<Record>, done: nat, minted: set<Bytes>,
    used: Option<File>, serve: Option<Memory>)

  /** So much of an append of `line` as has landed. */
  function Part(base: string, line: string, done: nat): string {
    var data := Fill(base) + (line + [NL]);
    data[..if done <= |data| then done else |data|]
  }

  function LinksText(w: World): string {
    match w.writing
    case None => w.base
    case Some(r) => w.base + Part(w.base, ToLine(r), w.done)
  }

  /** How a refresh comes out, when the text it would read is the ledger's own. */
  datatype Glance = Unread | Unreadable | Missing | Read

  function SightingOf(w: World, glance: Glance): Sighting {
    match glance
    case Unread => Kept
    case Unreadable => Failed
    case Missing => Gone
    case Read => Legible(LinksText(w))
  }

  datatype Step =
    | Begin(record: Record)                            // a `share` starts its append
    | Land(n: nat)                                     // more of it is written
    | Prune(at: nat, now: Option<nat>)                 // a writer rewrites the ledger without its expired rows
    | Open(readable: bool, glance: Glance)             // `serve` starts
    | Ask(id: Bytes, glance: Glance, o: Outcome)       // the gate asks
    | Exit                                             // `serve` ends, however
    | Fail(links: string, junk: string, lost: bool)    // the power fails

  function Next(v: Vocabulary, bound: Bound, w: World, s: Step): World
    requires Valid(w.used)
    ensures Valid(Next(v, bound, w, s).used)
  {
    match s
    case Begin(r) => w.(base := LinksText(w), writing := Some(r), done := 0, minted := w.minted + {r.rootId})
    case Land(n) => w.(done := w.done + n)
    case Prune(at, now) => w.(base := Pruned(v, LinksText(w), at, now), writing := None, done := 0)
    case Open(readable, glance) =>
      if w.serve.Some? || !readable then w
      else w.(serve := Some(Refreshed(v, Memory(map[], Spent(w.used)), SightingOf(w, glance))))
    case Ask(id, glance, o) =>
      if w.serve.None? then w
      else
        var d := Decide(Refreshed(v, w.serve.value, SightingOf(w, glance)), w.used, bound, id, o);
        w.(serve := Some(d.0), used := d.1)
    case Exit => w.(serve := None)
    case Fail(links, junk, lost) =>
      w.(base := links, writing := None, done := 0, used := PowerLoss(w.used, junk, lost), serve := None)
  }

  /** Whether this step grants the one-use link `id`. */
  predicate Grants(v: Vocabulary, bound: Bound, w: World, s: Step, id: Bytes) {
    && s.Ask? && s.id == id && w.serve.Some?
    && var m := Refreshed(v, w.serve.value, SightingOf(w, s.glance));
       OnceIn(m.rows, id) && Decide(m, w.used, bound, id, s.o).2
  }

  function CountGrants(v: Vocabulary, bound: Bound, w: World, steps: seq<Step>, id: Bytes): nat
    requires Valid(w.used)
    decreases |steps|
  {
    if steps == [] then 0
    else (if Grants(v, bound, w, steps[0], id) then 1 else 0)
         + CountGrants(v, bound, Next(v, bound, w, steps[0]), steps[1..], id)
  }

  predicate HasRow(v: Vocabulary, text: string, id: Bytes) { exists r :: r in RecordsIn(v, text) && r.rootId == id }

  /** Every row of `id` is a one-use link's. */
  predicate AllOnce(v: Vocabulary, text: string, id: Bytes) {
    forall r :: r in RecordsIn(v, text) && r.rootId == id ==> r.kind == Once
  }

  /** What a writer's types promise: a row of seven fields, on one line. */
  predicate Writable(v: Vocabulary, r: Record) { Typed(v, r) && Lacks(r.holder, TAB) && Lacks(ToLine(r), NL) }

  /** What the system promises of a step, for the one-use link `id`, whatever ids are minted: a mint's id is
      fresh and keeps its kind; a power loss leaves of `id` only rows once appended; and the write that grants it
      finds `links.used` missing or its entry on disk. */
  predicate Fair(v: Vocabulary, w: World, s: Step, id: Bytes) {
    match s
    case Begin(r) => r.rootId !in w.minted && (r.rootId == id ==> r.kind == Once) && Writable(v, r)
    case Ask(i, _, o) => i == id && Succeeds(w.used, o) ==> Anchored(w.used)
    case Fail(links, _, _) => AllOnce(v, links, id) && (HasRow(v, links, id) ==> id in w.minted)
    case _ => true
  }

  /** And that no id minted goes on where `id` ends, as none does where ids are of one length. */
  predicate Proper(v: Vocabulary, w: World, s: Step, id: Bytes) {
    Fair(v, w, s, id) && (s.Begin? ==> !(id < s.record.rootId))
  }

  predicate FairRun(v: Vocabulary, bound: Bound, w: World, steps: seq<Step>, id: Bytes)
    requires Valid(w.used)
    decreases |steps|
  {
    steps != [] ==> Fair(v, w, steps[0], id) && FairRun(v, bound, Next(v, bound, w, steps[0]), steps[1..], id)
  }

  predicate ProperRun(v: Vocabulary, bound: Bound, w: World, steps: seq<Step>, id: Bytes)
    requires Valid(w.used)
    decreases |steps|
  {
    steps != [] ==> Proper(v, w, steps[0], id) && ProperRun(v, bound, Next(v, bound, w, steps[0]), steps[1..], id)
  }

  // --- what the ledger's writers do to its rows ---

  lemma {:induction false} PrefixFields(head: seq<string>, last: string, c: char, k: nat)
    requires forall i :: 0 <= i < |head| ==> Lacks(head[i], c)
    requires Lacks(last, c) && k <= |Terminated(head, c) + last|
    ensures var s := (Terminated(head, c) + last)[..k];
            |Split(s, c)| == |head| + 1 ==>
              k >= |Terminated(head, c)| && s == Terminated(head, c) + last[..k - |Terminated(head, c)|]
    ensures |Split((Terminated(head, c) + last)[..k], c)| <= |head| + 1
  {
    var whole := Terminated(head, c) + last;
    var s := whole[..k];
    if head == [] {
      assert whole == last;
      SplitPiece(s, c, []);
    } else if k <= |head[0]| {
      assert s == head[0][..k];
      SplitPiece(s, c, []);
    } else {
      var rest := Terminated(head[1..], c) + last;
      var j := k - |head[0]| - 1;
      assert whole == head[0] + [c] + rest;
      assert s == head[0] + [c] + rest[..j];
      SplitPiece(head[0], c, rest[..j]);
      PrefixFields(head[1..], last, c, j);
      assert Terminated(head, c) == head[0] + [c] + Terminated(head[1..], c);
    }
  }

  lemma HeadLacks(v: Vocabulary, r: Record)
    requires Writable(v, r)
    ensures forall i :: 0 <= i < |Head(r)| ==> Lacks(Head(r)[i], TAB)
    ensures Lacks(ToHex(r.rootId), TAB)
  {
    WordsClean(r);
    PlainLacks(KindWord(r.kind), TAB);
    PlainLacks(DelegationWord(r.delegation), TAB);
    PlainLacks(ToDec(UnixSecs(r.expiry)), TAB);
    PlainLacks("-", TAB);
    PlainLacks(ToHex(r.rootId), TAB);
    SixLack(Head(r), TAB);
  }

  /** A cut row with all its fields is cut in its id. */
  lemma TornFields(v: Vocabulary, r: Record, j: nat)
    requires Writable(v, r) && j <= |ToLine(r)| && |Split(ToLine(r)[..j], TAB)| == 7
    ensures var n := j - |Terminated(Head(r), TAB)|;
            0 <= n <= |ToHex(r.rootId)| && Split(ToLine(r)[..j], TAB) == Head(r) + [ToHex(r.rootId)[..n]]
  {
    HeadLacks(v, r);
    PrefixFields(Head(r), ToHex(r.rootId), TAB, j);
    var n := j - |Terminated(Head(r), TAB)|;
    assert Lacks(ToHex(r.rootId)[..n], TAB);
    LineFields(v, r, ToHex(r.rootId)[..n]);
  }

  /** What a row's text keeps of a record: all but the part of its expiry under a second, or before the epoch. */
  function Written(r: Record): Record { r.(expiry := UnixSecs(r.expiry) * NANOS) }

  lemma WrittenFields(v: Vocabulary, r: Record, last: string)
    requires Typed(v, r) && FromFields(v, Head(r) + [last]).Ok?
    ensures FromHex(last).Some? && FromFields(v, Head(r) + [last]) == Ok(Written(r).(rootId := FromHex(last).value))
  {
    WordsClean(r);
    ParseU64Back(UnixSecs(r.expiry));
    assert (Head(r) + [last])[6] == last;
  }

  lemma TornRecord(v: Vocabulary, r: Record, j: nat)
    requires Writable(v, r) && j <= |ToLine(r)| && FromLine(v, ToLine(r)[..j]).Ok?
    ensures var x := FromLine(v, ToLine(r)[..j]).value;
            && x == Written(r).(rootId := x.rootId) && x.rootId <= r.rootId
            && (x.rootId == r.rootId ==> j == |ToLine(r)|)
  {
    FromLineSeven(v, ToLine(r)[..j]);
    TornFields(v, r, j);
    var n := j - |Terminated(Head(r), TAB)|;
    WrittenFields(v, r, ToHex(r.rootId)[..n]);
    HexBack(r.rootId);
    HexCut(r.rootId, n);
  }

  /** A row cut short reads, if it reads at all, as the whole row does but under a prefix of its id; only the whole
      row reads under all of it. */
  lemma TornRow(v: Vocabulary, r: Record, k: nat)
    requires Writable(v, r) && k <= |ToLine(r)|
    ensures var rs := LineRecords(v, ToLine(r)[..k]);
            rs != [] ==>
              && rs == [Written(r).(rootId := rs[0].rootId)] && rs[0].rootId <= r.rootId
              && (rs[0].rootId == r.rootId ==> k == |ToLine(r)|)
    ensures Faithful(r) ==> Written(r) == r
  {
    if LineRecords(v, ToLine(r)[..k]) != [] {
      TrimOfPrefix(r, k);
      var j: nat :| j <= k && Trim(ToLine(r)[..k]) == ToLine(r)[..j];
      TornRecord(v, r, j);
    }
  }

  /** Nothing is trimmed off the front of a row: it opens with a word. */
  lemma TrimOfPrefix(r: Record, k: nat)
    requires k <= |ToLine(r)|
    ensures exists j: nat :: j <= k && Trim(ToLine(r)[..k]) == ToLine(r)[..j]
  {
    WordsClean(r);
    var cut := ToLine(r)[..k];
    TrimEndPrefix(cut);
    var j: nat :| j <= |cut| && TrimEnd(cut) == cut[..j];
    if j > 0 { assert cut[..j][0] == KindWord(r.kind)[0]; }
    assert Trim(cut) == cut[..j] == ToLine(r)[..j];
  }

  lemma {:induction false} TrimEndPrefix(s: string)
    ensures exists j: nat :: j <= |s| && TrimEnd(s) == s[..j]
  {
    if s != [] && Space(s[|s| - 1]) {
      var front := s[..|s| - 1];
      TrimEndPrefix(front);
      var j: nat :| j <= |front| && TrimEnd(front) == front[..j];
      assert front[..j] == s[..j];
    } else {
      assert TrimEnd(s) == s[..|s|];
    }
  }

  /** The append under way has put the whole of its row down, and it reads under its own id. */
  predicate Landed(v: Vocabulary, w: World) {
    && w.writing.Some?
    && w.done >= |Fill(w.base)| + |ToLine(w.writing.value)|
    && exists x :: x in LineRecords(v, ToLine(w.writing.value)) && x.rootId == w.writing.value.rootId
  }

  /** How much of the row itself then stands in the file. */
  function Down(base: string, line: string, done: nat): (n: nat)
    ensures n <= |line|
  {
    if done < |Fill(base)| then 0 else if done - |Fill(base)| <= |line| then done - |Fill(base)| else |line|
  }

  lemma PartIs(base: string, line: string, done: nat)
    ensures done < |Fill(base)| ==> Part(base, line, done) == []
    ensures done >= |Fill(base)| ==>
              var ended := line + [NL];
              Part(base, line, done) ==
              Fill(base) + ended[..if done - |Fill(base)| <= |ended| then done - |Fill(base)| else |ended|]
  {}

  /** The rows of a text with an append under way: those before it, and what the cut row reads as. */
  lemma PartRows(v: Vocabulary, base: string, line: string, done: nat)
    requires Lacks(line, NL)
    ensures RecordsIn(v, base + Part(base, line, done))
         == RecordsIn(v, base) + LineRecords(v, line[..Down(base, line, done)])
  {
    PartIs(base, line, done);
    if done < |Fill(base)| {
      assert base + [] == base && line[..0] == [];
      assert RecordsIn(v, base) + [] == RecordsIn(v, base);
    } else {
      var ended := line + [NL];
      var n := if done - |Fill(base)| <= |ended| then done - |Fill(base)| else |ended|;
      RecordsFramed(v, base, ended[..n]);
      RecordsOfPiece(v, line, n);
    }
  }

  lemma LinksRows(v: Vocabulary, w: World)
    requires w.writing.Some? && Writable(v, w.writing.value)
    ensures var line := ToLine(w.writing.value);
            RecordsIn(v, LinksText(w)) == RecordsIn(v, w.base) + LineRecords(v, line[..Down(w.base, line, w.done)])
  {
    PartRows(v, w.base, ToLine(w.writing.value), w.done);
  }

  // --- at most once ---

  /** The ledger as its writers keep it, for the one-use link `id`. */
  predicate LedgerOk(v: Vocabulary, w: World, id: Bytes) {
    && AllOnce(v, w.base, id)
    && (HasRow(v, w.base, id) ==> id in w.minted)
    && (w.writing.Some? ==>
          var r := w.writing.value;
          && Writable(v, r) && !(id < r.rootId) && r.rootId in w.minted
          && (r.rootId == id ==> r.kind == Once && !HasRow(v, w.base, id)))
  }

  /** A serving process's memory: a spent link stays spent while any row of it can be read. */
  predicate MemoryOk(v: Vocabulary, w: World, id: Bytes, spent: bool, m: Memory) {
    && (id in m.rows ==> id in w.minted && m.rows[id].once && (Writing(w, id) ==> Landed(v, w)))
    && (spent ==> id in m.used || (id !in m.rows && !HasRow(v, LinksText(w), id)))
  }

  predicate Writing(w: World, id: Bytes) { w.writing.Some? && w.writing.value.rootId == id }

  predicate Inv(v: Vocabulary, w: World, id: Bytes, spent: bool) {
    && Valid(w.used)
    && LedgerOk(v, w, id)
    && (spent ==> id in w.minted && OnDisk(w.used, [ToHex(id)]) && (Writing(w, id) ==> Landed(v, w)))
    && (w.serve.Some? ==> MemoryOk(v, w, id, spent, w.serve.value))
  }

  /** What can be read of `id` now: a row from before, or the row under way once it has landed. */
  lemma RowsNow(v: Vocabulary, w: World, id: Bytes)
    requires LedgerOk(v, w, id)
    ensures HasRow(v, LinksText(w), id) <==> HasRow(v, w.base, id) || (Writing(w, id) && Landed(v, w))
    ensures AllOnce(v, LinksText(w), id)
    ensures HasRow(v, LinksText(w), id) ==> id in w.minted
  {
    if w.writing.Some? {
      var r := w.writing.value;
      var k := Down(w.base, ToLine(r), w.done);
      var was, now, cut := RecordsIn(v, w.base), RecordsIn(v, LinksText(w)), ToLine(r)[..k];
      LinksRows(v, w);
      TornRow(v, r, k);
      assert ToLine(r)[..|ToLine(r)|] == ToLine(r);
      var mine := LineRecords(v, cut);
      assert forall x :: x in now <==> x in was || x in mine;
      if Writing(w, id) && Landed(v, w) {
        assert cut == ToLine(r);
        var x :| x in LineRecords(v, ToLine(r)) && x.rootId == r.rootId;
        assert x in now;
      }
    }
  }

  lemma {:induction false} RowsOfHas(rs: seq<Record>, id: Bytes)
    ensures id in RowsOf(rs) <==> exists r :: r in rs && r.rootId == id
    ensures (forall r :: r in rs && r.rootId == id ==> r.kind == Once) && id in RowsOf(rs) ==> RowsOf(rs)[id].once
  {
    if rs != [] {
      var front, last := rs[..|rs| - 1], rs[|rs| - 1];
      RowsOfHas(front, id);
      assert rs == front + [last];
      if r :| r in rs && r.rootId == id { assert r in front || r == last; }
      assert last in rs;
      assert forall r :: r in front ==> r in rs;
    }
  }

  lemma {:induction false} LiveSubset(now: Option<nat>, rs: seq<Record>)
    ensures forall r :: r in Live(now, rs) ==> r in rs
  {
    if rs != [] { LiveSubset(now, rs[1..]); }
  }

  lemma {:induction false} SpentHas(lines: seq<string>, id: Bytes)
    requires id != [] && ToHex(id) in lines
    ensures id in SpentIn(lines)
  {
    if lines[0] == ToHex(id) {
      HexBack(id);
      TrimNone(lines[0]);
    } else {
      assert lines == [lines[0]] + lines[1..];
      SpentHas(lines[1..], id);
    }
  }

  /** An id on disk in `links.used` is spent for every process that reads it. */
  lemma OnDiskIsSpent(f: Option<File>, id: Bytes)
    requires Valid(f) && id != [] && OnDisk(f, [ToHex(id)])
    ensures id in Spent(f)
  {
    KeptInBody(f, [ToHex(id)]);
    var whole := Whole(Body(f), NL);
    WithinHas(ToHex(id), whole);
    var i :| 0 <= i < |whole| && whole[i] == ToHex(id);
    HexBack(id);
    assert StripCr(ToHex(id)) == ToHex(id) by {
      if ToHex(id) != [] { assert !Space(ToHex(id)[|ToHex(id)| - 1]); }
    }
    assert Lines(Body(f))[i] == ToHex(id);
    SpentHas(Lines(Body(f)), id);
  }

  lemma RefreshOk(v: Vocabulary, w: World, id: Bytes, spent: bool, m: Memory, glance: Glance)
    requires Inv(v, w, id, spent) && MemoryOk(v, w, id, spent, m)
    ensures MemoryOk(v, w, id, spent, Refreshed(v, m, SightingOf(w, glance)))
  {
    if glance == Read {
      RowsNow(v, w, id);
      RowsOfHas(RecordsIn(v, LinksText(w)), id);
    }
  }

  /** One step keeps the invariant, and grants the link only if it was never granted. */
  lemma StepOk(v: Vocabulary, bound: Bound, w: World, s: Step, id: Bytes, spent: bool)
    requires id != [] && Inv(v, w, id, spent) && Proper(v, w, s, id)
    ensures Grants(v, bound, w, s, id) ==> !spent
    ensures Inv(v, Next(v, bound, w, s), id, spent || Grants(v, bound, w, s, id))
  {
    RowsNow(v, w, id);
    var w' := Next(v, bound, w, s);
    match s
    case Begin(r) =>
      BeginText(w, r);
    case Land(n) =>
      assert LedgerOk(v, w', id);
      RowsNow(v, w', id);
    case Prune(at, now) =>
      PruneKeepsLive(v, LinksText(w), at, now);
      LiveSubset(now, RecordsIn(v, LinksText(w)));
    case Open(readable, glance) =>
      if w.serve.None? && readable {
        if spent { OnDiskIsSpent(w.used, id); }
        RefreshOk(v, w, id, spent, Memory(map[], Spent(w.used)), glance);
      }
    case Ask(i, glance, o) =>
      if w.serve.Some? {
        RefreshOk(v, w, id, spent, w.serve.value, glance);
        AskOk(v, bound, w, i, glance, o, id, spent);
      }
    case Exit =>
    case Fail(links, junk, lost) =>
      if spent { PowerLossHolds(w.used, junk, lost, [ToHex(id)]); }
  }

  lemma BeginText(w: World, r: Record)
    ensures LinksText(w.(base := LinksText(w), writing := Some(r), done := 0)) == LinksText(w)
  {}

  /** What an ask's write leaves on disk: the use it records, when it grants, and any use recorded before. */
  lemma AskWrites(f: Option<File>, i: Bytes, o: Outcome, id: Bytes, spent: bool)
    requires Valid(f) && (spent ==> OnDisk(f, [ToHex(id)]))
    requires i == id && Succeeds(f, o) ==> Anchored(f)
    ensures Valid(Append(f, ToHex(i), o))
    ensures spent || (i == id && Succeeds(f, o)) ==> OnDisk(Append(f, ToHex(i), o), [ToHex(id)])
  {
    HexBack(i);
    PlainLacks(ToHex(i), NL);
    assert [] + [ToHex(id)] == [ToHex(id)];
    if spent {
      OnDiskKept(f, ToHex(i), o, [ToHex(id)]);
    } else if i == id {
      AppendHolds(f, ToHex(i), o, []);
    }
  }

  lemma AskOk(v: Vocabulary, bound: Bound, w: World, i: Bytes, glance: Glance, o: Outcome, id: Bytes, spent: bool)
    requires id != [] && w.serve.Some? && Inv(v, w, id, spent) && Proper(v, w, Ask(i, glance, o), id)
    requires MemoryOk(v, w, id, spent, Refreshed(v, w.serve.value, SightingOf(w, glance)))
    ensures var s := Ask(i, glance, o);
            && (Grants(v, bound, w, s, id) ==> !spent)
            && Inv(v, Next(v, bound, w, s), id, spent || Grants(v, bound, w, s, id))
  {
    AskWrites(w.used, i, o, id, spent);
    var m := Refreshed(v, w.serve.value, SightingOf(w, glance));
    var d := Decide(m, w.used, bound, i, o);
    var w' := Next(v, bound, w, Ask(i, glance, o));
    DecideKeeps(m, w.used, bound, i, o);
    assert LinksText(w') == LinksText(w);
    assert w'.serve == Some(d.0) && w'.used == d.1;
    assert LedgerOk(v, w', id) && (Landed(v, w) ==> Landed(v, w'));
    assert MemoryOk(v, w', id, spent || Grants(v, bound, w, Ask(i, glance, o), id), d.0);
  }

  /** What an ask can change: the file by its one append, and the memory by the one id it spends. */
  lemma DecideKeeps(m: Memory, f: Option<File>, bound: Bound, i: Bytes, o: Outcome)
    ensures var d := Decide(m, f, bound, i, o);
            && d.0.rows == m.rows && m.used <= d.0.used <= m.used + {i}
            && (d.1 == f || d.1 == Append(f, ToHex(i), o))
            && (OnceIn(m.rows, i) && d.2 ==>
                  i !in m.used && i in d.0.used && Succeeds(f, o) && d.1 == Append(f, ToHex(i), o))
  {}

  /** An append of another line never takes what is on disk for good. */
  lemma OnDiskKept(f: Option<File>, line: string, o: Outcome, kept: seq<string>)
    requires Valid(f) && Lacks(line, NL) && OnDisk(f, kept) && kept != []
    ensures OnDisk(Append(f, line, o), kept)
  {
    AppendHolds(f, line, o, kept);
    if Succeeds(f, o) {
      var g := Append(f, line, o).value;
      WithinFront(kept, line, SyncedLines(g));
    }
  }

  lemma {:induction false} WithinFront<T>(xs: seq<T>, z: T, ys: seq<T>)
    requires Within(xs + [z], ys)
    ensures Within(xs, ys)
    decreases |ys|
  {
    if xs != [] {
      assert (xs + [z])[1..] == xs[1..] + [z];
      if xs[0] == ys[0] { WithinFront(xs[1..], z, ys[1..]); } else { WithinFront(xs, z, ys[1..]); }
    }
  }

  lemma {:induction false} CountOk(v: Vocabulary, bound: Bound, w: World, steps: seq<Step>, id: Bytes, spent: bool)
    requires id != [] && Inv(v, w, id, spent) && ProperRun(v, bound, w, steps, id)
    ensures CountGrants(v, bound, w, steps, id) <= if spent then 0 else 1
    decreases |steps|
  {
    if steps != [] {
      StepOk(v, bound, w, steps[0], id, spent);
      CountOk(v, bound, Next(v, bound, w, steps[0]), steps[1..], id, spent || Grants(v, bound, w, steps[0], id));
    }
  }

  /** A home before anything runs: no process, no append under way, and every row of `id` a one-use row
      that was appended. */
  predicate AtRest(v: Vocabulary, w: World, id: Bytes) {
    && w.serve.None? && w.writing.None? && Valid(w.used)
    && AllOnce(v, w.base, id) && (HasRow(v, w.base, id) ==> id in w.minted)
  }

  /** A one-use link is granted at most once, over every run of appends, prunes, reads, starts, ends, failed
      or torn writes and power losses; and never, when its use was on disk already. */
  lemma AtMostOnce(v: Vocabulary, bound: Bound, w: World, steps: seq<Step>, id: Bytes)
    requires id != [] && AtRest(v, w, id) && ProperRun(v, bound, w, steps, id)
    ensures CountGrants(v, bound, w, steps, id) <= 1
    ensures OnDisk(w.used, [ToHex(id)]) && id in w.minted ==> CountGrants(v, bound, w, steps, id) == 0
  {
    CountOk(v, bound, w, steps, id, false);
    if OnDisk(w.used, [ToHex(id)]) && id in w.minted { CountOk(v, bound, w, steps, id, true); }
  }

  /** A grant leaves its use on disk exactly when the write finds `links.used` missing or its entry on disk. */
  lemma GrantIsOnDisk(v: Vocabulary, bound: Bound, w: World, s: Step, id: Bytes)
    requires Valid(w.used) && Grants(v, bound, w, s, id)
    ensures OnDisk(Next(v, bound, w, s).used, [ToHex(id)]) <==> Anchored(w.used)
  {
    if Anchored(w.used) {
      HexBack(id);
      PlainLacks(ToHex(id), NL);
      AppendHolds(w.used, ToHex(id), s.o, []);
      assert [] + [ToHex(id)] == [ToHex(id)];
    }
  }
}
