/** What the gate answers by: of the ledger as last read, the last row an id has. */
module LedgerAnswers {
  import opened Wrappers
  import opened Codec
  import opened Text
  import opened GrantRecords
  import opened AppendLog
  import opened Ledger
  import opened LedgerLimits

  /** Where the last row of an id lies. */
  predicate LastAt(rs: seq<Record>, id: Bytes, i: int) {
    0 <= i < |rs| && rs[i].rootId == id && forall j :: i < j < |rs| ==> rs[j].rootId != id
  }

  lemma {:induction false} RowsAreLast(rs: seq<Record>, id: Bytes)
    ensures id in RowsOf(rs) <==> exists i :: LastAt(rs, id, i)
    ensures forall i :: LastAt(rs, id, i) ==> RowsOf(rs)[id] == Issued(rs[i].target, rs[i].serves, rs[i].kind.Once?)
  {
    if rs != [] {
      var n, front := |rs| - 1, rs[..|rs| - 1];
      RowsAreLast(front, id);
      if rs[n].rootId == id {
        assert LastAt(rs, id, n);
      } else {
        forall i | LastAt(front, id, i) ensures LastAt(rs, id, i) {}
        forall i | LastAt(rs, id, i) ensures LastAt(front, id, i) {}
      }
    }
  }

  /** A memory's rows are those of the text last read, and it has none before a read or after one that failed. */
  ghost predicate Reads(v: Vocabulary, m: Memory, last: Option<string>) {
    && (forall id :: id in m.rows <==> last.Some? && exists i :: LastAt(RecordsIn(v, last.value), id, i))
    && (forall id, i :: last.Some? && LastAt(RecordsIn(v, last.value), id, i) ==>
          var r := RecordsIn(v, last.value)[i]; m.rows[id] == Issued(r.target, r.serves, r.kind.Once?))
  }

  /** The text last read, once a look is over: the ledger as it lies, the one read before, or none. */
  function Glanced(w: World, last: Option<string>, glance: Glance): Option<string> {
    match glance
    case Read => Some(LinksText(w))
    case Unread => last
    case _ => None
  }

  /** And once a step is. */
  function LastRead(w: World, last: Option<string>, s: Step): Option<string> {
    match s
    case Open(readable, glance) => if w.serve.None? && readable then Glanced(w, None, glance) else last
    case Ask(_, glance, _) => Glanced(w, last, glance)
    case _ => last
  }

  function LastReadAfter(v: Vocabulary, bound: Bound, w: World, last: Option<string>, steps: seq<Step>): Option<string>
    requires Valid(w.used)
    decreases |steps|
  {
    if steps == [] then last
    else LastReadAfter(v, bound, Next(v, bound, w, steps[0]), LastRead(w, last, steps[0]), steps[1..])
  }

  lemma RefreshReads(v: Vocabulary, w: World, m: Memory, last: Option<string>, glance: Glance)
    requires Reads(v, m, last)
    ensures Reads(v, Refreshed(v, m, SightingOf(w, glance)), Glanced(w, last, glance))
  {
    if glance == Glance.Read {
      var rs := RecordsIn(v, LinksText(w));
      forall id
        ensures id in RowsOf(rs) <==> exists i :: LastAt(rs, id, i)
        ensures forall i :: LastAt(rs, id, i) ==> RowsOf(rs)[id] == Issued(rs[i].target, rs[i].serves, rs[i].kind.Once?)
      {
        RowsAreLast(rs, id);
      }
    }
  }

  lemma StepReads(v: Vocabulary, bound: Bound, w: World, last: Option<string>, s: Step)
    requires Valid(w.used) && (w.serve.Some? ==> Reads(v, w.serve.value, last))
    ensures var w' := Next(v, bound, w, s); w'.serve.Some? ==> Reads(v, w'.serve.value, LastRead(w, last, s))
  {
    match s
    case Open(readable, glance) =>
      if w.serve.None? && readable { RefreshReads(v, w, Memory(map[], Spent(w.used)), None, glance); }
    case Ask(id, glance, o) =>
      if w.serve.Some? {
        RefreshReads(v, w, w.serve.value, last, glance);
        DecideKeeps(Refreshed(v, w.serve.value, SightingOf(w, glance)), w.used, bound, id, o);
      }
    case _ =>
  }

  lemma {:induction false} RunReads(v: Vocabulary, bound: Bound, w: World, last: Option<string>, steps: seq<Step>)
    requires Valid(w.used) && (w.serve.Some? ==> Reads(v, w.serve.value, last))
    ensures var w' := WorldAfter(v, bound, w, steps);
            w'.serve.Some? ==> Reads(v, w'.serve.value, LastReadAfter(v, bound, w, last, steps))
    decreases |steps|
  {
    if steps != [] {
      StepReads(v, bound, w, last, steps[0]);
      RunReads(v, bound, Next(v, bound, w, steps[0]), LastRead(w, last, steps[0]), steps[1..]);
    }
  }

  /** Whether an ask is answered yes. */
  predicate Granted(v: Vocabulary, bound: Bound, w: World, id: Bytes, glance: Glance, o: Outcome) {
    w.serve.Some? && Decide(Refreshed(v, w.serve.value, SightingOf(w, glance)), w.used, bound, id, o).2
  }

  /** A row this run binds: its service, made while its name served what it serves now. */
  predicate Binds(bound: Bound, rs: seq<Record>, id: Bytes, i: int) {
    LastAt(rs, id, i) && bound(rs[i].target, rs[i].serves)
  }

  /** The last row of an id is a one-use link's, one this run binds. */
  ghost predicate BindsOnce(bound: Bound, rs: seq<Record>, id: Bytes) {
    exists i :: Binds(bound, rs, id, i) && rs[i].kind.Once?
  }

  ghost predicate LastIsOnce(rs: seq<Record>, id: Bytes) { exists i :: LastAt(rs, id, i) && rs[i].kind.Once? }

  function Rows(v: Vocabulary, text: Option<string>): seq<Record> {
    if text.Some? then RecordsIn(v, text.value) else []
  }

  /** What an ask comes to, by the rows last read and what was spent before it: the answer is yes when the id's last
      row reaches what this run binds, and, for a one-use link, it is not spent and its use was written. Nothing else
      touches `links.used`; and what counts as spent changes by that one id, and by those a read finds no one-use row
      for. */
  ghost predicate AnswersBy(
    bound: Bound, rs: seq<Record>, used: set<Bytes>, f: Option<File>, id: Bytes, glance: Glance, o: Outcome,
    granted: bool, spent: set<Bytes>, g: Option<File>)
  {
    var spends := BindsOnce(bound, rs, id) && id !in used;
    && (granted <==>
          exists i :: Binds(bound, rs, id, i) && (rs[i].kind.Once? ==> id !in used && Succeeds(f, o)))
    && g == (if spends then Append(f, ToHex(id), o) else f)
    && forall x :: x in spent <==>
         || (x in used && (glance.Read? ==> LastIsOnce(rs, x)))
         || (x == id && spends && Succeeds(f, o))
  }

  lemma DecideExact(
    v: Vocabulary, m: Memory, text: Option<string>, f: Option<File>, bound: Bound, id: Bytes, o: Outcome)
    requires Reads(v, m, text)
    ensures var d := Decide(m, f, bound, id, o);
            AnswersBy(bound, Rows(v, text), m.used, f, id, Unread, o, d.2, d.0.used, d.1)
  {
    var rs := Rows(v, text);
    if id in m.rows {
      var i :| LastAt(rs, id, i);
      assert forall j :: LastAt(rs, id, j) ==> j == i;
      assert m.rows[id] == Issued(rs[i].target, rs[i].serves, rs[i].kind.Once?);
      assert Binds(bound, rs, id, i) <==> bound(rs[i].target, rs[i].serves);
    } else {
      assert forall i :: !LastAt(rs, id, i);
    }
  }

  /** A refresh forgets as spent only what the text it read has no one-use row for. */
  lemma RefreshTrims(v: Vocabulary, w: World, m: Memory, glance: Glance)
    ensures var used := Refreshed(v, m, SightingOf(w, glance)).used;
            forall x :: x in used <==> x in m.used && (glance.Read? ==> LastIsOnce(RecordsIn(v, LinksText(w)), x))
  {
    var rs := RecordsIn(v, LinksText(w));
    forall x ensures OnceIn(RowsOf(rs), x) <==> LastIsOnce(rs, x) { RowsAreLast(rs, x); }
  }

  lemma TrimmedToo(
    bound: Bound, rs: seq<Record>, used: set<Bytes>, trimmed: set<Bytes>, f: Option<File>, id: Bytes, glance: Glance,
    o: Outcome, granted: bool, spent: set<Bytes>, g: Option<File>)
    requires forall x :: x in trimmed <==> x in used && (glance.Read? ==> LastIsOnce(rs, x))
    requires AnswersBy(bound, rs, trimmed, f, id, Unread, o, granted, spent, g)
    ensures AnswersBy(bound, rs, used, f, id, glance, o, granted, spent, g)
  {
    forall i | Binds(bound, rs, id, i) && rs[i].kind.Once? ensures id in trimmed <==> id in used {
      assert LastIsOnce(rs, id);
    }
  }

  /** The ask, once its look is over: the memory it decides by, and the text that memory reads. */
  lemma AskDecides(
    v: Vocabulary, bound: Bound, w: World, m: Memory, text: Option<string>, id: Bytes, glance: Glance, o: Outcome)
    requires w.serve.Some? && m == Refreshed(v, w.serve.value, SightingOf(w, glance))
    requires Reads(v, m, text) && (glance.Read? ==> text == Some(LinksText(w)))
    ensures var d := Decide(m, w.used, bound, id, o);
            AnswersBy(bound, Rows(v, text), w.serve.value.used, w.used, id, glance, o, d.2, d.0.used, d.1)
  {
    RefreshTrims(v, w, w.serve.value, glance);
    DecideExact(v, m, text, w.used, bound, id, o);
    var d := Decide(m, w.used, bound, id, o);
    TrimmedToo(bound, Rows(v, text), w.serve.value.used, m.used, w.used, id, glance, o, d.2, d.0.used, d.1);
  }

  lemma NextAsk(v: Vocabulary, bound: Bound, w: World, m: Memory, id: Bytes, glance: Glance, o: Outcome)
    requires Valid(w.used) && w.serve.Some? && m == Refreshed(v, w.serve.value, SightingOf(w, glance))
    ensures var w', d := Next(v, bound, w, Ask(id, glance, o)), Decide(m, w.used, bound, id, o);
            w'.serve == Some(d.0) && w'.used == d.1 && (Granted(v, bound, w, id, glance, o) <==> d.2)
  {}

  lemma AskExact(v: Vocabulary, bound: Bound, w: World, last: Option<string>, id: Bytes, glance: Glance, o: Outcome)
    requires Valid(w.used) && w.serve.Some? && Reads(v, w.serve.value, last)
    ensures var w' := Next(v, bound, w, Ask(id, glance, o));
            && w'.serve.Some?
            && AnswersBy(bound, Rows(v, Glanced(w, last, glance)), w.serve.value.used, w.used, id, glance, o,
                         Granted(v, bound, w, id, glance, o), w'.serve.value.used, w'.used)
  {
    var m := Refreshed(v, w.serve.value, SightingOf(w, glance));
    RefreshReads(v, w, w.serve.value, last, glance);
    AskDecides(v, bound, w, m, Glanced(w, last, glance), id, glance, o);
    NextAsk(v, bound, w, m, id, glance, o);
  }

  /** Over every run, so each ask is answered, by the text the process last read. */
  lemma AnswerExact(v: Vocabulary, bound: Bound, w: World, steps: seq<Step>, id: Bytes, glance: Glance, o: Outcome)
    requires Valid(w.used) && w.serve.None? && WorldAfter(v, bound, w, steps).serve.Some?
    ensures var w1 := WorldAfter(v, bound, w, steps);
            var rs := Rows(v, Glanced(w1, LastReadAfter(v, bound, w, None, steps), glance));
            var w' := Next(v, bound, w1, Ask(id, glance, o));
            && w'.serve.Some?
            && AnswersBy(bound, rs, w1.serve.value.used, w1.used, id, glance, o,
                         Granted(v, bound, w1, id, glance, o), w'.serve.value.used, w'.used)
  {
    RunReads(v, bound, w, None, steps);
    AskExact(v, bound, WorldAfter(v, bound, w, steps), LastReadAfter(v, bound, w, None, steps), id, glance, o);
  }

  /** So a one-use link is granted only for what this run binds, as its last row in the text last read says. */
  lemma GrantIsBound(v: Vocabulary, bound: Bound, w: World, steps: seq<Step>, id: Bytes, glance: Glance, o: Outcome)
    requires Valid(w.used) && w.serve.None?
    requires Grants(v, bound, WorldAfter(v, bound, w, steps), Ask(id, glance, o), id)
    ensures var w1 := WorldAfter(v, bound, w, steps);
            var rs := Rows(v, Glanced(w1, LastReadAfter(v, bound, w, None, steps), glance));
            BindsOnce(bound, rs, id) && id !in w1.serve.value.used
  {
    var w1 := WorldAfter(v, bound, w, steps);
    var last := LastReadAfter(v, bound, w, None, steps);
    RunReads(v, bound, w, None, steps);
    RefreshReads(v, w1, w1.serve.value, last, glance);
    AnswerExact(v, bound, w, steps, id, glance, o);
    var rs := Rows(v, Glanced(w1, last, glance));
    var i :| Binds(bound, rs, id, i) && (rs[i].kind.Once? ==> id !in w1.serve.value.used);
    assert OnceIn(Refreshed(v, w1.serve.value, SightingOf(w1, glance)).rows, id);
  }

  /** The ids `links.used` has spent: those its lines spell, and no others. */
  lemma {:induction false} SpentExact(lines: seq<string>, id: Bytes)
    ensures id in SpentIn(lines) <==>
              exists line :: line in lines && Trim(line) != [] && FromHex(Trim(line)) == Some(id)
  {
    if lines != [] {
      SpentExact(lines[1..], id);
      assert forall line :: line in lines <==> line == lines[0] || line in lines[1..];
    }
  }
}
