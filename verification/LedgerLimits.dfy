/** Where the promise of the one-use links ends: each guard it stands on, with the runs that follow without it. */
module LedgerLimits {
  import opened Wrappers
  import opened Codec
  import opened Text
  import opened GrantRecords
  import opened AppendLog
  import opened Ledger

  // --- runs, one after another ---

  /** A world after some steps. */
  function WorldAfter(v: Vocabulary, bound: Bound, w: World, steps: seq<Step>): (w': World)
    requires Valid(w.used)
    ensures Valid(w'.used)
    decreases |steps|
  {
    if steps == [] then w else WorldAfter(v, bound, Next(v, bound, w, steps[0]), steps[1..])
  }

  lemma {:induction false} RunsJoin(v: Vocabulary, bound: Bound, w: World, a: seq<Step>, b: seq<Step>, id: Bytes)
    requires Valid(w.used)
    ensures CountGrants(v, bound, w, a + b, id) ==
            CountGrants(v, bound, w, a, id) + CountGrants(v, bound, WorldAfter(v, bound, w, a), b, id)
    ensures FairRun(v, bound, w, a + b, id) <==>
              FairRun(v, bound, w, a, id) && FairRun(v, bound, WorldAfter(v, bound, w, a), b, id)
    ensures WorldAfter(v, bound, w, a + b) == WorldAfter(v, bound, WorldAfter(v, bound, w, a), b)
    decreases |a|
  {
    if a == [] {
      assert a + b == b;
    } else {
      assert (a + b)[1..] == a[1..] + b;
      RunsJoin(v, bound, Next(v, bound, w, a[0]), a[1..], b, id);
    }
  }

  lemma OneStep(v: Vocabulary, bound: Bound, w: World, s: Step, id: Bytes)
    requires Valid(w.used)
    ensures CountGrants(v, bound, w, [s], id) == if Grants(v, bound, w, s, id) then 1 else 0
    ensures FairRun(v, bound, w, [s], id) <==> Fair(v, w, s, id)
    ensures WorldAfter(v, bound, w, [s]) == Next(v, bound, w, s)
  {
    assert [s][1..] == [];
  }

  lemma TwoSteps(v: Vocabulary, bound: Bound, w: World, a: Step, b: Step, id: Bytes)
    requires Valid(w.used)
    ensures var w1 := Next(v, bound, w, a);
            && CountGrants(v, bound, w, [a] + [b], id) ==
               (if Grants(v, bound, w, a, id) then 1 else 0) + (if Grants(v, bound, w1, b, id) then 1 else 0)
            && (FairRun(v, bound, w, [a] + [b], id) <==> Fair(v, w, a, id) && Fair(v, w1, b, id))
            && WorldAfter(v, bound, w, [a] + [b]) == Next(v, bound, w1, b)
  {
    OneStep(v, bound, w, a, id);
    OneStep(v, bound, Next(v, bound, w, a), b, id);
    RunsJoin(v, bound, w, [a], [b], id);
  }

  // --- a file of used links the append cannot vouch for ---

  /** A row the gate would admit, in the ledger as it lies. */
  predicate Admissible(v: Vocabulary, bound: Bound, base: string, id: Bytes) {
    var rows := RowsOf(RecordsIn(v, base));
    OnceIn(rows, id) && bound(rows[id].service, rows[id].serves)
  }

  /** A serving process asked for a one-use link it holds unused and the ledger, as it lies, admits. */
  predicate Ready(v: Vocabulary, bound: Bound, w: World, id: Bytes) {
    && w.serve.Some? && Valid(w.used) && id !in w.serve.value.used
    && Admissible(v, bound, LinksText(w), id)
  }

  /** An ask leaves the ledger as it lies. */
  lemma AskLeavesText(v: Vocabulary, bound: Bound, w: World, id: Bytes, o: Outcome)
    requires Valid(w.used)
    ensures LinksText(Next(v, bound, w, Ask(id, Read, o))) == LinksText(w)
  {}

  /** A memory that holds a one-use row unused. */
  predicate Unused(m: Memory, bound: Bound, id: Bytes) {
    OnceIn(m.rows, id) && bound(m.rows[id].service, m.rows[id].serves) && id !in m.used
  }

  lemma ReadyUnused(v: Vocabulary, bound: Bound, w: World, id: Bytes)
    requires Ready(v, bound, w, id)
    ensures Unused(Refreshed(v, w.serve.value, SightingOf(w, Read)), bound, id)
  {}

  lemma DecideUnused(m: Memory, f: Option<File>, bound: Bound, id: Bytes, o: Outcome)
    requires Unused(m, bound, id)
    ensures var d := Decide(m, f, bound, id, o); d.1 == Append(f, ToHex(id), o) && d.2 == Succeeds(f, o)
    ensures !Succeeds(f, o) ==> Decide(m, f, bound, id, o).0 == m
  {}

  /** Asked with a write that works, it is granted. */
  lemma AskGrants(v: Vocabulary, bound: Bound, w: World, id: Bytes)
    requires Ready(v, bound, w, id)
    ensures Grants(v, bound, w, Ask(id, Read, Done), id)
    ensures Next(v, bound, w, Ask(id, Read, Done)).used == Append(w.used, ToHex(id), Done)
  {
    ReadyUnused(v, bound, w, id);
    DecideUnused(Refreshed(v, w.serve.value, SightingOf(w, Read)), w.used, bound, id, Done);
  }

  /** Asked with a first write that makes the file and stops, it is not, and what is left is no file the next
      append can vouch for. */
  lemma FirstWriteUnanchors(v: Vocabulary, bound: Bound, w: World, id: Bytes)
    requires Ready(v, bound, w, id) && w.used.None?
    ensures var s := Ask(id, Read, Stopped(0));
            !Grants(v, bound, w, s, id) && Ready(v, bound, Next(v, bound, w, s), id)
            && !Anchored(Next(v, bound, w, s).used)
  {
    AskLeavesText(v, bound, w, id, Stopped(0));
  }

  /** The ledger as it lies after a power loss that took `links.used`, and a start. */
  function Restarted(v: Vocabulary, bound: Bound, w: World, text: string): World
    requires Valid(w.used)
  {
    Next(v, bound, Next(v, bound, w, Fail(text, "", true)), Open(true, Read))
  }

  /** Nothing counts as used then. */
  lemma LossForgets(v: Vocabulary, bound: Bound, w: World, text: string)
    requires Valid(w.used) && !Anchored(w.used)
    ensures var w' := Restarted(v, bound, w, text);
            w'.used.None? && w'.serve.Some? && w'.serve.value.used == {} && LinksText(w') == text
  {
    assert Whole("", NL) == [] && Tail("", NL) == [];
    assert Spent(None) == {};
  }

  lemma LossReadies(v: Vocabulary, bound: Bound, w: World, text: string, id: Bytes)
    requires Valid(w.used) && !Anchored(w.used) && Admissible(v, bound, text, id)
    ensures Ready(v, bound, Restarted(v, bound, w, text), id)
  {
    LossForgets(v, bound, w, text);
  }

  /** The power fails, `serve` starts again, and the link is asked for. */
  function LossRun(text: string, id: Bytes): seq<Step> {
    [Fail(text, "", true)] + [Open(true, Read)] + [Ask(id, Read, Done)]
  }

  lemma GrantedAfterLoss(v: Vocabulary, bound: Bound, w: World, text: string, id: Bytes)
    requires Valid(w.used) && !Anchored(w.used) && Admissible(v, bound, text, id)
    ensures CountGrants(v, bound, w, LossRun(text, id), id) == 1
  {
    var a, b, c := Fail(text, "", true), Open(true, Read), Ask(id, Read, Done);
    LossReadies(v, bound, w, text, id);
    AskGrants(v, bound, Restarted(v, bound, w, text), id);
    TwoSteps(v, bound, w, a, b, id);
    OneStep(v, bound, Restarted(v, bound, w, text), c, id);
    RunsJoin(v, bound, w, [a] + [b], [c], id);
  }

  /** Where the guard fails the promise does, in every such state: a use granted, a power loss and a start, and
      the same link is granted again. */
  lemma UnanchoredGrantsTwice(v: Vocabulary, bound: Bound, w: World, id: Bytes)
    requires Ready(v, bound, w, id) && !Anchored(w.used)
    ensures CountGrants(v, bound, w, [Ask(id, Read, Done)] + LossRun(LinksText(w), id), id) == 2
  {
    var s := Ask(id, Read, Done);
    AskGrants(v, bound, w, id);
    GrantedAfterLoss(v, bound, Next(v, bound, w, s), LinksText(w), id);
    OneStep(v, bound, w, s, id);
    RunsJoin(v, bound, w, [s], LossRun(LinksText(w), id), id);
  }

  /** The steps of that run ask nothing of the system it does not promise. */
  lemma LossRunIsFair(v: Vocabulary, bound: Bound, w: World, text: string, id: Bytes)
    requires Valid(w.used) && !Anchored(w.used) && AllOnce(v, text, id) && id in w.minted
    ensures FairRun(v, bound, w, LossRun(text, id), id)
  {
    var a, b, c := Fail(text, "", true), Open(true, Read), Ask(id, Read, Done);
    LossForgets(v, bound, w, text);
    TwoSteps(v, bound, w, a, b, id);
    OneStep(v, bound, Restarted(v, bound, w, text), c, id);
    RunsJoin(v, bound, w, [a] + [b], [c], id);
  }

  // --- the guards, exactly ---

  /** A run whose mints all take ids of a set. */
  predicate MintsFrom(steps: seq<Step>, ids: iset<Bytes>) {
    forall i :: 0 <= i < |steps| && steps[i].Begin? ==> steps[i].record.rootId in ids
  }

  /** No id of the set still to be minted goes on where `id` ends. */
  ghost predicate NoneExtends(ids: iset<Bytes>, minted: set<Bytes>, id: Bytes) {
    forall x :: x in ids && x !in minted ==> !(id < x)
  }

  /** Over every run after this ask, taken as granted, whose mints take their ids from the set, the link is granted
      no more. */
  ghost predicate OnceOnly(v: Vocabulary, bound: Bound, w: World, id: Bytes, ids: iset<Bytes>)
    requires Valid(w.used)
  {
    forall rest | FairRun(v, bound, Next(v, bound, w, Ask(id, Read, Done)), rest, id) && MintsFrom(rest, ids) ::
      CountGrants(v, bound, w, [Ask(id, Read, Done)] + rest, id) <= 1
  }

  lemma {:induction false} FairIsProper(
    v: Vocabulary, bound: Bound, w: World, steps: seq<Step>, id: Bytes, ids: iset<Bytes>)
    requires Valid(w.used) && FairRun(v, bound, w, steps, id)
    requires MintsFrom(steps, ids) && NoneExtends(ids, w.minted, id)
    ensures ProperRun(v, bound, w, steps, id)
    decreases |steps|
  {
    if steps != [] {
      assert steps[0].Begin? ==> steps[0].record.rootId in ids;
      assert forall i :: 0 <= i < |steps[1..]| ==> steps[1..][i] == steps[i + 1];
      FairIsProper(v, bound, Next(v, bound, w, steps[0]), steps[1..], id, ids);
    }
  }

  lemma AdmittedIsMinted(v: Vocabulary, bound: Bound, w: World, id: Bytes)
    requires LedgerOk(v, w, id) && Admissible(v, bound, LinksText(w), id)
    ensures AllOnce(v, LinksText(w), id) && id in w.minted
  {
    RowsNow(v, w, id);
    RowsOfHas(RecordsIn(v, LinksText(w)), id);
  }

  /** Both guards, exactly: a one-use link now granted is granted at most once over every run that follows, its mints
      taking their ids from a set, when and only when the granting write finds `links.used` missing or its entry on
      disk, and no id of the set still to be minted goes on where the link's ends. */
  lemma AtMostOnceExactly(v: Vocabulary, bound: Bound, w: World, id: Bytes, ids: iset<Bytes>)
    requires id != [] && Inv(v, w, id, false) && Ready(v, bound, w, id)
    ensures OnceOnly(v, bound, w, id, ids) <==> Anchored(w.used) && NoneExtends(ids, w.minted, id)
  {
    AskGrants(v, bound, w, id);
    if !Anchored(w.used) {
      UnanchoredTwice(v, bound, w, id, ids);
    } else if NoneExtends(ids, w.minted, id) {
      GuardedOnce(v, bound, w, id, ids);
    } else {
      var x :| x in ids && x !in w.minted && id < x;
      ExtendedTwice(v, bound, w, id, x, ids);
    }
  }

  lemma GuardedOnce(v: Vocabulary, bound: Bound, w: World, id: Bytes, ids: iset<Bytes>)
    requires id != [] && Inv(v, w, id, false) && Anchored(w.used) && NoneExtends(ids, w.minted, id)
    requires Grants(v, bound, w, Ask(id, Read, Done), id)
    ensures OnceOnly(v, bound, w, id, ids)
  {
    var s := Ask(id, Read, Done);
    var w' := Next(v, bound, w, s);
    StepOk(v, bound, w, s, id, false);
    forall rest | FairRun(v, bound, w', rest, id) && MintsFrom(rest, ids)
      ensures CountGrants(v, bound, w, [s] + rest, id) <= 1
    {
      FairIsProper(v, bound, w', rest, id, ids);
      CountOk(v, bound, w', rest, id, true);
      OneStep(v, bound, w, s, id);
      RunsJoin(v, bound, w, [s], rest, id);
    }
  }

  lemma GrantedTwice(v: Vocabulary, bound: Bound, w: World, id: Bytes, rest: seq<Step>, ids: iset<Bytes>)
    requires Valid(w.used) && FairRun(v, bound, Next(v, bound, w, Ask(id, Read, Done)), rest, id)
    requires MintsFrom(rest, ids) && CountGrants(v, bound, w, [Ask(id, Read, Done)] + rest, id) > 1
    ensures !OnceOnly(v, bound, w, id, ids)
  {}

  lemma UnanchoredTwice(v: Vocabulary, bound: Bound, w: World, id: Bytes, ids: iset<Bytes>)
    requires Inv(v, w, id, false) && Ready(v, bound, w, id) && !Anchored(w.used)
    ensures !OnceOnly(v, bound, w, id, ids)
  {
    var run := LossRun(LinksText(w), id);
    AskGrants(v, bound, w, id);
    AdmittedIsMinted(v, bound, w, id);
    LossRunIsFair(v, bound, Next(v, bound, w, Ask(id, Read, Done)), LinksText(w), id);
    LossMintsNone(LinksText(w), id, ids);
    UnanchoredGrantsTwice(v, bound, w, id);
    GrantedTwice(v, bound, w, id, run, ids);
  }

  lemma LossMintsNone(text: string, id: Bytes, ids: iset<Bytes>)
    ensures MintsFrom(LossRun(text, id), ids)
  {}

  lemma ExtendedTwice(v: Vocabulary, bound: Bound, w: World, id: Bytes, x: Bytes, ids: iset<Bytes>)
    requires id != [] && Ready(v, bound, w, id) && Anchored(w.used) && id < x && x !in w.minted && x in ids
    ensures !OnceOnly(v, bound, w, id, ids)
  {
    var rest := ExtendingGrantsTwice(v, bound, w, id, x);
    GrantedTwice(v, bound, w, id, rest, ids);
  }

  // --- a torn row under a shorter id ---

  lemma ShortLine(r: Record, k: nat)
    requires k <= |r.rootId|
    ensures var cut := |Terminated(Head(r), TAB)| + 2 * k;
            cut <= |ToLine(r)| && ToLine(r)[..cut] == ToLine(r.(rootId := r.rootId[..k]))
  {
    var head, hex := Terminated(Head(r), TAB), ToHex(r.rootId);
    HexPrefix(r.rootId, k);
    assert Head(r.(rootId := r.rootId[..k])) == Head(r);
    assert (head + hex)[..|head| + 2 * k] == head + hex[..2 * k];
  }

  /** A row cut inside its id, after whole bytes of it, reads as the same row under those bytes. */
  lemma TornRowReads(v: Vocabulary, r: Record, k: nat)
    requires Storable(v, r) && 0 < k <= |r.rootId|
    ensures var cut := |Terminated(Head(r), TAB)| + 2 * k;
            cut <= |ToLine(r)| && LineRecords(v, ToLine(r)[..cut]) == [r.(rootId := r.rootId[..k])]
  {
    ShortLine(r, k);
    StorableLine(v, r.(rootId := r.rootId[..k]));
  }

  lemma {:induction false} HexPrefix(b: Bytes, k: nat)
    requires k <= |b|
    ensures 2 * k <= |ToHex(b)| && ToHex(b)[..2 * k] == ToHex(b[..k])
  {
    if k > 0 {
      HexPrefix(b[1..], k - 1);
      assert b[..k][1..] == b[1..][..k - 1];
      var first := [DigitChar(b[0] / 16), DigitChar(b[0] % 16)];
      assert ToHex(b) == first + ToHex(b[1..]);
      assert ToHex(b)[..2 * k] == first + ToHex(b[1..])[..2 * (k - 1)];
    }
  }

  /** How much of an append of `r` must land for its row to read under the first `k` bytes of its id. */
  function CutAt(base: string, r: Record, k: nat): nat { |Fill(base)| + |Terminated(Head(r), TAB)| + 2 * k }

  /** So much of an append as reads as one row. */
  lemma PartReads(v: Vocabulary, base: string, line: string, done: nat, cut: string, row: Record)
    requires Lacks(line, NL) && cut == line[..Down(base, line, done)] && LineRecords(v, cut) == [row]
    ensures RecordsIn(v, base + Part(base, line, done)) == RecordsIn(v, base) + [row]
  {
    PartRows(v, base, line, done);
  }

  lemma CutRows(v: Vocabulary, base: string, r: Record, id: Bytes)
    requires Storable(v, r) && id != [] && id <= r.rootId
    ensures RecordsIn(v, base + Part(base, ToLine(r), CutAt(base, r, |id|))) == RecordsIn(v, base) + [r.(rootId := id)]
  {
    var line, n := ToLine(r), |Terminated(Head(r), TAB)| + 2 * |id|;
    TornRowReads(v, r, |id|);
    assert r.rootId[..|id|] == id && Down(base, line, CutAt(base, r, |id|)) == n;
    PartReads(v, base, line, CutAt(base, r, |id|), line[..n], r.(rootId := id));
  }

  lemma WholeRows(v: Vocabulary, base: string, r: Record, done: nat)
    requires Storable(v, r) && done >= |Fill(base)| + |ToLine(r)|
    ensures RecordsIn(v, base + Part(base, ToLine(r), done)) == RecordsIn(v, base) + [r]
  {
    var line := ToLine(r);
    assert line[..Down(base, line, done)] == line;
    StorableLine(v, r);
    PartReads(v, base, line, done, line, r);
  }

  // --- a row whose id goes on where a link's ends ---

  /** A row of no one-use link, whose id goes on where `id` ends. */
  predicate Extends(v: Vocabulary, r: Record, id: Bytes) {
    Storable(v, r) && r.kind != Once && id != [] && id < r.rootId
  }

  /** Cut inside its id, it stands in the place of the link's own row. */
  lemma CutMasks(v: Vocabulary, base: string, r: Record, id: Bytes)
    requires Extends(v, r, id)
    ensures var rows := RowsOf(RecordsIn(v, base + Part(base, ToLine(r), CutAt(base, r, |id|))));
            id in rows && !rows[id].once
  {
    CutRows(v, base, r, id);
    LastRow(RecordsIn(v, base), r.(rootId := id));
  }

  /** Whole, it leaves that row as it was. */
  lemma WholeUnmasks(v: Vocabulary, bound: Bound, base: string, r: Record, id: Bytes, done: nat)
    requires Extends(v, r, id) && done >= |Fill(base)| + |ToLine(r)| && Admissible(v, bound, base, id)
    ensures Admissible(v, bound, base + Part(base, ToLine(r), done), id)
  {
    WholeRows(v, base, r, done);
    LastRow(RecordsIn(v, base), r);
  }

  /** A world with so much of an append down. */
  function Cut(w: World, r: Record, done: nat): World {
    w.(base := LinksText(w), writing := Some(r), done := done, minted := w.minted + {r.rootId})
  }

  /** Fair steps from one world to another, with so many grants of the link. */
  ghost predicate Leads(v: Vocabulary, bound: Bound, w: World, steps: seq<Step>, id: Bytes, grants: nat, w': World) {
    && Valid(w.used) && FairRun(v, bound, w, steps, id)
    && CountGrants(v, bound, w, steps, id) == grants && WorldAfter(v, bound, w, steps) == w'
  }

  lemma LeadsOn(
    v: Vocabulary, bound: Bound, w: World, a: seq<Step>, m: nat, w1: World, b: seq<Step>, n: nat, w2: World, id: Bytes)
    requires Leads(v, bound, w, a, id, m, w1) && Leads(v, bound, w1, b, id, n, w2)
    ensures Leads(v, bound, w, a + b, id, m + n, w2)
  {
    RunsJoin(v, bound, w, a, b, id);
  }

  lemma Begun(v: Vocabulary, bound: Bound, w: World, r: Record, n: nat, id: Bytes)
    requires Valid(w.used) && r.rootId !in w.minted && r.rootId != id && Writable(v, r)
    ensures Leads(v, bound, w, [Begin(r)] + [Land(n)], id, 0, Cut(w, r, n))
  {
    TwoSteps(v, bound, w, Begin(r), Land(n), id);
  }

  /** The link's one-use row hidden by another under its id. */
  predicate Masked(v: Vocabulary, w: World, id: Bytes) {
    var rows := RowsOf(RecordsIn(v, LinksText(w)));
    w.serve.Some? && Valid(w.used) && id in rows && !rows[id].once
  }

  /** An ask made then finds no one-use row of the link, so it counts as used no more. */
  lemma MaskedAskForgets(v: Vocabulary, bound: Bound, w: World, id: Bytes)
    requires Masked(v, w, id)
    ensures var s := Ask(id, Read, NotOpened);
            var w' := Next(v, bound, w, s);
            && !Grants(v, bound, w, s, id) && Fair(v, w, s, id)
            && w'.serve.Some? && id !in w'.serve.value.used && w' == w.(serve := w'.serve)
  {}

  lemma RestLands(v: Vocabulary, bound: Bound, w: World, n: nat, id: Bytes) returns (w': World)
    requires Masked(v, w, id) && Admissible(v, bound, LinksText(w.(done := w.done + n)), id)
    ensures Leads(v, bound, w, [Ask(id, Read, NotOpened)] + [Land(n)], id, 0, w')
    ensures Ready(v, bound, w', id) && w'.used == w.used
  {
    MaskedAskForgets(v, bound, w, id);
    TwoSteps(v, bound, w, Ask(id, Read, NotOpened), Land(n), id);
    var w1 := Next(v, bound, w, Ask(id, Read, NotOpened));
    w' := Next(v, bound, w1, Land(n));
    assert LinksText(w') == LinksText(w.(done := w.done + n));
  }

  lemma CutText(w: World, r: Record, n: nat)
    ensures LinksText(Cut(w, r, n)) == LinksText(w) + Part(LinksText(w), ToLine(r), n)
  {}

  /** The row begun and cut: it masks the link's, until the rest of it lands. */
  lemma CutIsMasked(v: Vocabulary, bound: Bound, w: World, r: Record, id: Bytes)
    returns (steps: seq<Step>, cut: World, rest: nat)
    requires w.serve.Some? && Valid(w.used)
    requires Extends(v, r, id) && r.rootId !in w.minted && Admissible(v, bound, LinksText(w), id)
    ensures Leads(v, bound, w, steps, id, 0, cut) && MintsFrom(steps, iset{r.rootId})
    ensures Masked(v, cut, id) && cut.used == w.used
    ensures Admissible(v, bound, LinksText(cut.(done := cut.done + rest)), id)
  {
    var n := CutAt(LinksText(w), r, |id|);
    rest := |Fill(LinksText(w))| + |ToLine(r)|;
    steps, cut := [Begin(r)] + [Land(n)], Cut(w, r, n);
    Begun(v, bound, w, r, n, id);
    CutText(w, r, n);
    CutMasks(v, LinksText(w), r, id);
    CutText(w, r, n + rest);
    WholeUnmasks(v, bound, LinksText(w), r, id, n + rest);
    assert cut.(done := cut.done + rest) == Cut(w, r, n + rest);
  }

  /** The row begun and cut, an ask, and the rest of it: the link may be granted as if it never was. */
  lemma MaskReadies(v: Vocabulary, bound: Bound, w: World, r: Record, id: Bytes) returns (steps: seq<Step>, w': World)
    requires w.serve.Some? && Valid(w.used)
    requires Extends(v, r, id) && r.rootId !in w.minted && Admissible(v, bound, LinksText(w), id)
    ensures Leads(v, bound, w, steps, id, 0, w') && MintsFrom(steps, iset{r.rootId})
    ensures Ready(v, bound, w', id) && w'.used == w.used
  {
    var a, cut, rest := CutIsMasked(v, bound, w, r, id);
    w' := RestLands(v, bound, cut, rest, id);
    LeadsOn(v, bound, w, a, 0, cut, [Ask(id, Read, NotOpened)] + [Land(rest)], 0, w', id);
    steps := a + ([Ask(id, Read, NotOpened)] + [Land(rest)]);
  }

  /** What a row that reads says it reaches is one service's name, on one line and in one field. */
  lemma {:induction false} TargetClean(v: Vocabulary, lines: seq<string>, r: Record)
    requires forall i :: 0 <= i < |lines| ==> Lacks(lines[i], NL)
    requires r in Collect(v, lines)
    ensures v.service(r.target) && Lacks(r.target, TAB) && Lacks(r.target, NL)
  {
    if r in LineRecords(v, lines[0]) {
      var line := Trim(lines[0]);
      FromLineSeven(v, line);
      assert r.target == Split(line, TAB)[2];
      TrimLacks(lines[0], NL);
      PiecesLack(line, TAB, NL);
      TailLacks(line, TAB);
    } else {
      TargetClean(v, lines[1..], r);
    }
  }

  lemma {:induction false} TerminatedLacks(pieces: seq<string>, c: char, other: char)
    requires c != other && forall i :: 0 <= i < |pieces| ==> Lacks(pieces[i], other)
    ensures Lacks(Terminated(pieces, c), other)
  {
    if pieces != [] { TerminatedLacks(pieces[1..], c, other); }
  }

  /** A row of words and a clean target is on one line. */
  lemma RowLacks(r: Record)
    requires Lacks(r.target, NL) && r.serves.None? && Lacks(r.holder, NL)
    ensures Lacks(ToLine(r), NL)
  {
    WordsClean(r);
    PlainLacks(KindWord(r.kind), NL);
    PlainLacks(DelegationWord(r.delegation), NL);
    PlainLacks(ToDec(UnixSecs(r.expiry)), NL);
    PlainLacks("-", NL);
    PlainLacks(ToHex(r.rootId), NL);
    SixLack(Head(r), NL);
    TerminatedLacks(Head(r), TAB, NL);
  }

  /** A device's row for what a row that reads reaches, under another id. */
  lemma RowToo(v: Vocabulary, bound: Bound, text: string, id: Bytes, x: Bytes) returns (r: Record)
    requires Admissible(v, bound, text, id) && id != [] && id < x
    ensures Extends(v, r, id) && r.rootId == x
  {
    RowsOfHas(RecordsIn(v, text), id);
    var own :| own in RecordsIn(v, text) && own.rootId == id;
    LinesLack(text);
    TargetClean(v, Lines(text), own);
    r := Record(own.target, None, Device, Sealed, "", x, 0);
    RowLacks(r);
  }

  lemma AskLeads(v: Vocabulary, bound: Bound, w: World, id: Bytes) returns (w': World)
    requires Ready(v, bound, w, id) && Anchored(w.used)
    ensures w' == Next(v, bound, w, Ask(id, Read, Done)) && Leads(v, bound, w, [Ask(id, Read, Done)], id, 1, w')
    ensures w'.serve.Some? && w'.minted == w.minted && LinksText(w') == LinksText(w) && Anchored(w'.used)
  {
    AskGrants(v, bound, w, id);
    AskLeavesText(v, bound, w, id, Done);
    OneStep(v, bound, w, Ask(id, Read, Done), id);
    w' := Next(v, bound, w, Ask(id, Read, Done));
  }

  /** One mint whose id goes on where the link's ends is enough: the link granted, that row torn where the ids part,
      an ask, the rest of the row, and the link is granted again. */
  lemma ExtendingGrantsTwice(v: Vocabulary, bound: Bound, w: World, id: Bytes, x: Bytes) returns (rest: seq<Step>)
    requires id != [] && Ready(v, bound, w, id) && Anchored(w.used) && id < x && x !in w.minted
    ensures FairRun(v, bound, Next(v, bound, w, Ask(id, Read, Done)), rest, id) && MintsFrom(rest, iset{x})
    ensures CountGrants(v, bound, w, [Ask(id, Read, Done)] + rest, id) == 2
  {
    var r := RowToo(v, bound, LinksText(w), id, x);
    var w1 := AskLeads(v, bound, w, id);
    var steps, w2 := MaskReadies(v, bound, w1, r, id);
    var w3 := AskLeads(v, bound, w2, id);
    rest := steps + [Ask(id, Read, Done)];
    LeadsOn(v, bound, w1, steps, 0, w2, [Ask(id, Read, Done)], 1, w3, id);
    LeadsOn(v, bound, w, [Ask(id, Read, Done)], 1, w1, rest, 1, w3, id);
  }
}
