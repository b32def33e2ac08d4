/** `append_line`: one line put at the end of a private file and synced, told from a crash part way.

    The disk keeps, of a file, the bytes a sync reached, and its name once a sync of the directory reached it.
    Of the bytes past the last sync a power loss may leave anything. */
module AppendLog {
  import opened Wrappers
  import opened Text
  import opened GrantRecords

  /** A file as it reads now, how much of it is on disk, and whether the entry naming it is. */
  datatype File = File(text: string, synced: nat, named: bool)

  predicate Valid(f: Option<File>) { f.Some? ==> f.value.synced <= |f.value.text| }

  function Body(f: Option<File>): string { if f.Some? then f.value.text else "" }

  /** Where one call to `append_line` stopped. */
  datatype Outcome =
    | NotOpened              // before the file was made or touched
    | Stopped(landed: nat)   // a step failed once this much had been written, the data sync included
    | DirUnsynced            // all of it written and synced, then the sync of the directory failed
    | Done

  /** What a call writes: a newline when the last line lacks one, then the line. */
  function Data(f: Option<File>, line: string): string { Fill(Body(f)) + (line + [NL]) }

  /** Whether the call returned `Ok`: a file it did not make needs no sync of the directory. */
  predicate Succeeds(f: Option<File>, o: Outcome) { o.Done? || (o.DirUnsynced? && f.Some?) }

  function Append(f: Option<File>, line: string, o: Outcome): Option<File> {
    var data := Data(f, line);
    var synced := if f.Some? then f.value.synced else 0;
    var named := f.Some? && f.value.named;
    match o
    case NotOpened => f
    case Stopped(n) => Some(File(Body(f) + data[..if n <= |data| then n else |data|], synced, named))
    case DirUnsynced => Some(File(Body(f) + data, |Body(f) + data|, named))
    case Done => Some(File(Body(f) + data, |Body(f) + data|, named || f.None?))
  }

  /** The power fails: what was synced stays, anything may follow it, and a file whose entry was never
      synced may be gone. */
  function PowerLoss(f: Option<File>, junk: string, lost: bool): Option<File>
    requires Valid(f)
  {
    if f.None? || (lost && !f.value.named) then None
    else
      var text := f.value.text[..f.value.synced] + junk;
      Some(File(text, |text|, true))
  }

  class LogFile {
    var file: Option<File>

    constructor (f: Option<File>)
      ensures file == f
    {
      file := f;
    }

    /** `write_all` to the end of the file: a failure leaves some of it. */
    method WriteAll(data: string) returns (ok: bool, ghost landed: nat)
      requires file.Some? && Valid(file)
      modifies this
      ensures landed <= |data| && (ok ==> landed == |data|)
      ensures file == Some(old(file).value.(text := old(file).value.text + data[..landed])) && Valid(file)
    {
      var n: nat := *;
      if 0 <= n < |data| {
        file := Some(file.value.(text := file.value.text + data[..n]));
        return false, n;
      }
      assert data[..|data|] == data;
      file := Some(file.value.(text := file.value.text + data));
      if * { return false, |data|; }
      return true, |data|;
    }

    /** The newline a torn tail is owed, then the line. */
    method WriteLine(line: string) returns (ok: bool, ghost landed: nat)
      requires file.Some? && Valid(file)
      modifies this
      ensures var data := Data(old(file), line);
              && landed <= |data| && (ok ==> landed == |data|)
              && file == Some(old(file).value.(text := old(file).value.text + data[..landed])) && Valid(file)
    {
      ghost var data := Data(file, line);
      var fill := Fill(file.value.text);
      ok, landed := WriteAll(fill);
      assert data[..landed] == fill[..landed];
      if !ok { return; }
      assert fill[..landed] == fill;
      ghost var more: nat;
      ok, more := WriteAll(line + [NL]);
      landed := |fill| + more;
      assert data[..landed] == fill + (line + [NL])[..more];
      Chain(old(file).value.text, fill, (line + [NL])[..more]);
    }

    /** The steps of `append_line`, any of which may fail. */
    method AppendLine(line: string) returns (ok: bool, ghost o: Outcome)
      requires Valid(file)
      modifies this
      ensures Valid(file)
      ensures file == Append(old(file), line, o) && ok == Succeeds(old(file), o)
    {
      var made := file.None?;
      if * { return false, NotOpened; }
      // Opened, and made when it was not there; its mode is set and its last byte read next.
      file := Some(File(Body(file), if made then 0 else file.value.synced, !made && file.value.named));
      ghost var data := Data(file, line);
      assert data[..0] == [] && Body(file) + [] == Body(file) && data[..|data|] == data;
      if * { return false, Stopped(0); }
      ghost var landed: nat;
      ok, landed := WriteLine(line);
      if !ok { return false, Stopped(landed); }
      if * { return false, Stopped(|data|); }
      file := Some(file.value.(synced := |file.value.text|));
      if made {
        if * { return false, DirUnsynced; }
        file := Some(file.value.(named := true));
      }
      return true, Done;
    }
  }

  /** What a call writes, exactly: nothing before the file is opened; else, after what was there, the line and its
      newline, with one more first when the last line had none: all of it, synced, when it returns `Ok`, and some of it
      from the front when it stops. What was on disk stays on disk. */
  lemma AppendWrites(f: Option<File>, line: string, o: Outcome)
    requires Valid(f)
    ensures var g, was := Append(f, line, o), Body(f);
            var whole := was + (if was == "" || was[|was| - 1] == NL then line + [NL] else [NL] + line + [NL]);
            && (o.NotOpened? ==> g == f)
            && (!o.NotOpened? ==>
                  && g.Some? && was <= g.value.text <= whole
                  && (f.Some? ==> g.value.synced >= f.value.synced)
                  && (g.value.named <==> (f.Some? && f.value.named) || (f.None? && o.Done?)))
            && (Succeeds(f, o) ==> g.value.text == whole && g.value.synced == |whole|)
  {
    var was, data := Body(f), Data(f, line);
    assert was + data == was + (if was == "" || was[|was| - 1] == NL then line + [NL] else [NL] + line + [NL]);
  }

  // --- framing ---

  /** `xs` stands in `ys`, in order. */
  predicate Within<T(==)>(xs: seq<T>, ys: seq<T>) {
    xs == [] || (ys != [] && if xs[0] == ys[0] then Within(xs[1..], ys[1..]) else Within(xs, ys[1..]))
  }

  lemma {:induction false} WithinMore<T>(xs: seq<T>, ys: seq<T>, more: seq<T>)
    requires Within(xs, ys)
    ensures Within(xs, ys + more)
    decreases |ys|
  {
    if xs != [] {
      assert (ys + more)[1..] == ys[1..] + more;
      if xs[0] == ys[0] { WithinMore(xs[1..], ys[1..], more); } else { WithinMore(xs, ys[1..], more); }
    }
  }

  lemma {:induction false} WithinLast<T>(xs: seq<T>, ys: seq<T>, z: T)
    requires Within(xs, ys)
    ensures Within(xs + [z], ys + [z])
    decreases |ys|
  {
    assert ys != [] ==> (ys + [z])[1..] == ys[1..] + [z];
    if xs == [] {
      assert xs + [z] == [z] && [z][1..] == [];
      if ys == [] { assert ys + [z] == [z]; } else { WithinLast(xs, ys[1..], z); }
    } else {
      assert (xs + [z])[1..] == xs[1..] + [z];
      if xs[0] == ys[0] { WithinLast(xs[1..], ys[1..], z); } else { WithinLast(xs, ys[1..], z); }
    }
  }

  lemma {:induction false} WithinHas<T>(x: T, ys: seq<T>)
    ensures Within([x], ys) <==> x in ys
    decreases |ys|
  {
    if ys != [] {
      assert [x][1..] == [];
      WithinHas(x, ys[1..]);
      assert ys == [ys[0]] + ys[1..];
    }
  }

  /** The whole lines a crash cannot take: those a sync reached. */
  function SyncedLines(f: File): seq<string>
    requires f.synced <= |f.text|
  {
    Whole(f.text[..f.synced], NL)
  }

  /** The lines `kept` are on disk for good, in a file whose own entry is. */
  predicate OnDisk(f: Option<File>, kept: seq<string>)
    requires Valid(f)
  {
    kept == [] || (f.Some? && f.value.named && Within(kept, SyncedLines(f.value)))
  }

  /** A file the next append can vouch for: not there yet, or with its entry on disk. */
  predicate Anchored(f: Option<File>) { f.None? || f.value.named }

  lemma PrefixLines(a: string, b: string)
    ensures Whole(a, NL) <= Whole(a + b, NL)
  {
    SplitOn(a, b, NL);
  }

  lemma OneLine(line: string)
    requires Lacks(line, NL)
    ensures Whole(line + [NL], NL) == [line]
  {
    SplitPiece(line, NL, []);
    assert line + [NL] + [] == line + [NL] && Whole([], NL) == [];
    assert [line] + [] == [line];
  }

  /** An append that lands whole ends the lines before it and adds its own. */
  lemma AppendedLines(f: Option<File>, line: string)
    requires Lacks(line, NL)
    ensures var torn := Tail(Body(f), NL);
            Whole(Body(f) + Data(f, line), NL) == Whole(Body(f), NL) + (if torn == [] then [line] else [torn, line])
  {
    var body, ended := Body(f), line + [NL];
    TailEmpty(body, NL);
    OneLine(line);
    if Tail(body, NL) == [] {
      SplitOn(body, ended, NL);
      assert Data(f, line) == ended && [] + ended == ended;
    } else {
      SplitTorn(body, ended);
      assert Data(f, line) == [NL] + ended;
    }
  }

  /** However an append stops, every whole line before it is whole after it. */
  lemma AppendKeepsLines(f: Option<File>, line: string, o: Outcome)
    ensures Whole(Body(f), NL) <= Whole(Body(Append(f, line, o)), NL)
  {
    var data := Data(f, line);
    match o
    case NotOpened =>
    case Stopped(n) => PrefixLines(Body(f), data[..if n <= |data| then n else |data|]);
    case DirUnsynced => PrefixLines(Body(f), data);
    case Done => PrefixLines(Body(f), data);
  }

  /** Kept lines are among the whole lines of all the file reads as. */
  lemma KeptInBody(f: Option<File>, kept: seq<string>)
    requires Valid(f) && OnDisk(f, kept)
    ensures Within(kept, Whole(Body(f), NL))
  {
    if kept != [] {
      var s, rest := f.value.text[..f.value.synced], f.value.text[f.value.synced..];
      assert Body(f) == s + rest;
      SplitOn(s, rest, NL);
      WithinMore(kept, Whole(s, NL), Whole(Tail(s, NL) + rest, NL));
    }
  }

  /** All of it landed and synced. */
  lemma LandedHolds(f: Option<File>, line: string, kept: seq<string>, named: bool)
    requires Valid(f) && Lacks(line, NL) && OnDisk(f, kept)
    requires f.Some? && f.value.named ==> named
    ensures var text := Body(f) + Data(f, line);
            var g := Some(File(text, |text|, named));
            OnDisk(g, kept) && (named ==> OnDisk(g, kept + [line]))
  {
    var text := Body(f) + Data(f, line);
    assert text[..|text|] == text;
    KeptInBody(f, kept);
    AppendedLines(f, line);
    var whole, torn := Whole(Body(f), NL), Tail(Body(f), NL);
    var front := whole + if torn == [] then [] else [torn];
    assert Whole(text, NL) == front + [line];
    WithinMore(kept, whole, if torn == [] then [] else [torn]);
    WithinLast(kept, front, line);
    WithinMore(kept, front, [line]);
  }

  lemma AppendHolds(f: Option<File>, line: string, o: Outcome, kept: seq<string>)
    requires Valid(f) && Lacks(line, NL) && OnDisk(f, kept)
    requires Succeeds(f, o) ==> Anchored(f)
    ensures Valid(Append(f, line, o))
    ensures OnDisk(Append(f, line, o), if Succeeds(f, o) then kept + [line] else kept)
  {
    match o
    case NotOpened =>
    case Stopped(n) =>
      if kept != [] {
        var g := Append(f, line, o).value;
        assert g.text[..g.synced] == f.value.text[..f.value.synced];
      }
    case DirUnsynced => LandedHolds(f, line, kept, f.Some? && f.value.named);
    case Done => LandedHolds(f, line, kept, (f.Some? && f.value.named) || f.None?);
  }

  lemma PowerLossHolds(f: Option<File>, junk: string, lost: bool, kept: seq<string>)
    requires Valid(f) && OnDisk(f, kept)
    ensures Valid(PowerLoss(f, junk, lost)) && OnDisk(PowerLoss(f, junk, lost), kept)
  {
    if kept != [] {
      var s := f.value.text[..f.value.synced];
      SplitOn(s, junk, NL);
      WithinMore(kept, Whole(s, NL), Whole(Tail(s, NL) + junk, NL));
      assert (s + junk)[..|s + junk|] == s + junk;
    }
  }

  datatype Op = Write(line: string, o: Outcome) | Crash(junk: string, lost: bool)

  function Do(f: Option<File>, op: Op): Option<File>
    requires Valid(f)
    ensures Valid(Do(f, op))
  {
    match op
    case Write(line, o) => Append(f, line, o)
    case Crash(junk, lost) => PowerLoss(f, junk, lost)
  }

  function Run(f: Option<File>, ops: seq<Op>): (g: Option<File>)
    requires Valid(f)
    ensures Valid(g)
    decreases |ops|
  {
    if ops == [] then f else Run(Do(f, ops[0]), ops[1..])
  }

  /** The lines whose call returned `Ok`, in order. */
  function OkLines(f: Option<File>, ops: seq<Op>): seq<string>
    requires Valid(f)
    decreases |ops|
  {
    if ops == [] then []
    else (if ops[0].Write? && Succeeds(f, ops[0].o) then [ops[0].line] else []) + OkLines(Do(f, ops[0]), ops[1..])
  }

  predicate HasLoss(ops: seq<Op>) { exists i :: 0 <= i < |ops| && ops[i].Crash? }

  predicate SingleLines(ops: seq<Op>) { forall i :: 0 <= i < |ops| && ops[i].Write? ==> Lacks(ops[i].line, NL) }

  /** Of the calls that returned `Ok`, those that a power loss follows found the file missing or its entry on
      disk. */
  predicate AnchoredRun(f: Option<File>, ops: seq<Op>)
    requires Valid(f)
    decreases |ops|
  {
    ops != [] ==>
      && (ops[0].Write? && Succeeds(f, ops[0].o) && HasLoss(ops[1..]) ==> Anchored(f))
      && AnchoredRun(Do(f, ops[0]), ops[1..])
  }

  lemma OkStands(f: Option<File>, line: string, kept: seq<string>)
    requires Lacks(line, NL) && Within(kept, Whole(Body(f), NL))
    ensures Within(kept + [line], Whole(Body(f) + Data(f, line), NL))
  {
    var whole, torn := Whole(Body(f), NL), Tail(Body(f), NL);
    var ended := if torn == [] then [] else [torn];
    AppendedLines(f, line);
    assert Whole(Body(f) + Data(f, line), NL) == (whole + ended) + [line];
    WithinMore(kept, whole, ended);
    WithinLast(kept, whole + ended, line);
  }

  /** However an append stops, the lines that stood stand, and its own too when it returned `Ok`. */
  lemma AppendStands(f: Option<File>, line: string, o: Outcome, kept: seq<string>)
    requires Lacks(line, NL) && Within(kept, Whole(Body(f), NL))
    ensures Within(if Succeeds(f, o) then kept + [line] else kept, Whole(Body(Append(f, line, o)), NL))
  {
    if Succeeds(f, o) {
      OkStands(f, line, kept);
    } else {
      AppendKeepsLines(f, line, o);
      var whole, after := Whole(Body(f), NL), Whole(Body(Append(f, line, o)), NL);
      WithinMore(kept, whole, after[|whole|..]);
      assert whole + after[|whole|..] == after;
    }
  }

  /** Torn-append framing: from any file and over any appends, each stopped anywhere, every line that stood and
      every line whose call returned `Ok` is a whole line of the file, in order. */
  lemma {:induction false} OkLinesStand(f: Option<File>, ops: seq<Op>, kept: seq<string>)
    requires Valid(f) && SingleLines(ops) && !HasLoss(ops) && Within(kept, Whole(Body(f), NL))
    ensures Within(kept + OkLines(f, ops), Whole(Body(Run(f, ops)), NL))
    decreases |ops|
  {
    assert kept + [] == kept;
    if ops != [] {
      var op := ops[0];
      assert op.Write?;
      AppendStands(f, op.line, op.o, kept);
      var said := if Succeeds(f, op.o) then [op.line] else [];
      OpsTail(ops);
      OkLinesStand(Do(f, op), ops[1..], kept + said);
      Chain(kept, said, OkLines(Do(f, op), ops[1..]));
    }
  }

  lemma OpsTail(ops: seq<Op>)
    requires ops != []
    ensures HasLoss(ops) <==> ops[0].Crash? || HasLoss(ops[1..])
    ensures SingleLines(ops) ==> SingleLines(ops[1..])
  {
    if i :| 0 <= i < |ops| && ops[i].Crash? && i > 0 { assert ops[1..][i - 1].Crash?; }
    if i :| 0 <= i < |ops[1..]| && ops[1..][i].Crash? { assert ops[i + 1].Crash?; }
  }

  /** What one step keeps of the lines kept so far, while a power loss is still to come. */
  lemma StepHolds(f: Option<File>, op: Op, kept: seq<string>)
    requires Valid(f) && OnDisk(f, kept)
    requires op.Write? ==> Lacks(op.line, NL) && (Succeeds(f, op.o) ==> Anchored(f))
    ensures OnDisk(Do(f, op), if op.Write? && Succeeds(f, op.o) then kept + [op.line] else kept)
  {
    match op
    case Write(line, o) => AppendHolds(f, line, o, kept);
    case Crash(junk, lost) => PowerLossHolds(f, junk, lost, kept);
  }

  /** With power losses anywhere between them it holds still, where each call that returned `Ok` before one found
      the file missing or its entry on disk. */
  lemma {:induction false} OkLinesSurvive(f: Option<File>, ops: seq<Op>, kept: seq<string>)
    requires Valid(f) && OnDisk(f, kept) && SingleLines(ops) && AnchoredRun(f, ops)
    ensures Within(kept + OkLines(f, ops), Whole(Body(Run(f, ops)), NL))
    decreases |ops|
  {
    if !HasLoss(ops) {
      KeptInBody(f, kept);
      OkLinesStand(f, ops, kept);
    } else {
      var op := ops[0];
      OpsTail(ops);
      assert kept + [] == kept;
      if HasLoss(ops[1..]) || op.Crash? {
        StepHolds(f, op, kept);
        var said := if op.Write? && Succeeds(f, op.o) then [op.line] else [];
        OkLinesSurvive(Do(f, op), ops[1..], kept + said);
        Chain(kept, said, OkLines(Do(f, op), ops[1..]));
      }
    }
  }

  /** The guard is exact: an append that returned `Ok` is safe from every power loss exactly when it found
      the file missing or its entry already on disk. A file left by an append that failed before the sync of
      the directory is neither, and no later append syncs the directory for it. */
  lemma OkIsDurableExactly(f: Option<File>, line: string, o: Outcome)
    requires Valid(f) && Lacks(line, NL) && Succeeds(f, o)
    ensures Anchored(f) <==>
            forall junk, lost :: OnDisk(PowerLoss(Append(f, line, o), junk, lost), [line])
  {
    if Anchored(f) {
      AppendHolds(f, line, o, []);
      assert [] + [line] == [line];
      forall junk, lost ensures OnDisk(PowerLoss(Append(f, line, o), junk, lost), [line]) {
        PowerLossHolds(Append(f, line, o), junk, lost, [line]);
      }
    } else {
      assert PowerLoss(Append(f, line, o), [], true).None?;
    }
  }
}
