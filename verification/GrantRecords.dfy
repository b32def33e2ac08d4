/** The ledger's rows: one link this machine signed, a line of tab-separated text each. */
module GrantRecords {
  import opened Wrappers
  import opened Codec
  import opened Text
  import Names

  const TAB := '\t'
  const NANOS := 1_000_000_000

  /** The last whole second a `SystemTime` can name after the epoch. */
  const MAX_SECS := 0x7FFF_FFFF_FFFF_FFFF

  datatype Kind = Device | Fleet | Bearer | Once
  datatype Delegation = Delegable | Sealed

  /** Which texts nauthy takes for a service, and `serve` for a served target; each keeps its text. */
  datatype Vocabulary = Vocabulary(service: string -> bool, served: string -> bool)

  /** One grant; `expiry` counts nanoseconds from the unix epoch. */
  datatype Record = Record(
    target: string, serves: Option<string>, kind: Kind, delegation: Delegation,
    holder: string, rootId: Bytes, expiry: int)

  datatype LedgerError =
    Malformed | BadKind(text: string) | BadDelegation(text: string) | BadService | BadServed(text: string)
    | BadExpiry | BadRootId

  function KindWord(kind: Kind): string {
    match kind case Device => "device" case Fleet => "fleet" case Bearer => "bearer" case Once => "once"
  }

  function ParseKind(text: string): Result<Kind, LedgerError> {
    if text == "device" then Ok(Device)
    else if text == "fleet" then Ok(Fleet)
    else if text == "bearer" then Ok(Bearer)
    else if text == "once" then Ok(Once)
    else Err(BadKind(text))
  }

  function DelegationWord(d: Delegation): string { if d.Delegable? then "delegable" else "sealed" }

  function ParseDelegation(text: string): Result<Delegation, LedgerError> {
    if text == "delegable" then Ok(Delegable) else if text == "sealed" then Ok(Sealed) else Err(BadDelegation(text))
  }

  /** Whole seconds since the epoch, a time before it reading as the epoch. */
  function UnixSecs(time: int): nat { if time < 0 then 0 else time / NANOS }

  function FromUnixSecs(secs: nat): Result<int, LedgerError> {
    if secs <= MAX_SECS then Ok(secs * NANOS) else Err(Malformed)
  }

  function ServesField(r: Record): string { if r.serves.Some? then r.serves.value else "-" }

  /** The six fields before the id. */
  function Head(r: Record): seq<string> {
    [KindWord(r.kind), DelegationWord(r.delegation), r.target, ServesField(r), r.holder, ToDec(UnixSecs(r.expiry))]
  }

  function ToLine(r: Record): string { Terminated(Head(r), TAB) + ToHex(r.rootId) }

  function Field(fields: seq<string>, i: nat): Result<string, LedgerError> {
    if i < |fields| then Ok(fields[i]) else Err(Malformed)
  }

  function ParseServes(v: Vocabulary, text: string): Result<Option<string>, LedgerError> {
    if text == "-" then Ok(None) else if v.served(text) then Ok(Some(text)) else Err(BadServed(text))
  }

  function FromFields(v: Vocabulary, fields: seq<string>): Result<Record, LedgerError> {
    var kindText :- Field(fields, 0);
    var kind :- ParseKind(kindText);
    var delegationText :- Field(fields, 1);
    var delegation :- ParseDelegation(delegationText);
    if kind == Once && delegation == Delegable then Err(Malformed)
    else
      var target :- Field(fields, 2);
      if !v.service(target) then Err(BadService)
      else
        var servesText :- Field(fields, 3);
        var serves :- ParseServes(v, servesText);
        var holder :- Field(fields, 4);
        var secsText :- Field(fields, 5);
        var secs := ParseU64(secsText);
        if secs.None? then Err(BadExpiry)
        else
          var expiry :- FromUnixSecs(secs.value);
          var idText :- Field(fields, 6);
          var id := FromHex(idText);
          if id.None? then Err(BadRootId)
          else if |fields| > 7 then Err(Malformed)
          else Ok(Record(target, serves, kind, delegation, holder, id.value, expiry))
  }

  function FromLine(v: Vocabulary, line: string): Result<Record, LedgerError> { FromFields(v, Split(line, TAB)) }

  /** What the record's types promise: a service and a target that read back, neither holding a tab. */
  predicate Typed(v: Vocabulary, r: Record) {
    && v.service(r.target) && Lacks(r.target, TAB)
    && (r.serves.Some? ==> v.served(r.serves.value) && r.serves.value != "-" && Lacks(r.serves.value, TAB))
  }

  /** A record its line can carry. */
  predicate Faithful(r: Record) {
    && Lacks(r.holder, TAB)
    && r.expiry >= 0 && r.expiry % NANOS == 0 && r.expiry / NANOS <= MAX_SECS
    && !(r.kind == Once && r.delegation == Delegable)
  }

  lemma WordsClean(r: Record)
    ensures Plain(KindWord(r.kind)) && Plain(DelegationWord(r.delegation)) && Plain("-")
    ensures Plain(ToDec(UnixSecs(r.expiry))) && Plain(ToHex(r.rootId))
    ensures ParseKind(KindWord(r.kind)) == Ok(r.kind)
    ensures ParseDelegation(DelegationWord(r.delegation)) == Ok(r.delegation)
  {
    DecPlain(UnixSecs(r.expiry));
    HexBack(r.rootId);
  }

  lemma PlainLacks(s: string, c: char)
    requires Plain(s) && Space(c)
    ensures Lacks(s, c)
  {}

  lemma SixLack(s: seq<string>, c: char)
    requires |s| == 6
    requires Lacks(s[0], c) && Lacks(s[1], c) && Lacks(s[2], c) && Lacks(s[3], c) && Lacks(s[4], c) && Lacks(s[5], c)
    ensures forall i :: 0 <= i < |s| ==> Lacks(s[i], c)
  {}

  /** The fields of a line whose holder has no tab are the fields written. */
  lemma LineFields(v: Vocabulary, r: Record, last: string)
    requires Typed(v, r) && Lacks(r.holder, TAB) && Lacks(last, TAB)
    ensures Split(Terminated(Head(r), TAB) + last, TAB) == Head(r) + [last]
  {
    WordsClean(r);
    PlainLacks(KindWord(r.kind), TAB);
    PlainLacks(DelegationWord(r.delegation), TAB);
    PlainLacks(ToDec(UnixSecs(r.expiry)), TAB);
    PlainLacks("-", TAB);
    SixLack(Head(r), TAB);
    TerminatedWhole(Head(r), TAB, last);
    SplitPiece(last, TAB, []);
  }

  lemma {:induction false} TerminatedCount(pieces: seq<string>, c: char, b: string)
    ensures |Whole(Terminated(pieces, c) + b, c)| >= |pieces|
    ensures (exists i :: 0 <= i < |pieces| && !Lacks(pieces[i], c)) ==> |Whole(Terminated(pieces, c) + b, c)| > |pieces|
  {
    if pieces != [] {
      var rest := Terminated(pieces[1..], c) + b;
      assert Terminated(pieces, c) + b == pieces[0] + [c] + rest;
      PieceCount(pieces[0], c, rest);
      TerminatedCount(pieces[1..], c, b);
      if i :| 0 <= i < |pieces| && !Lacks(pieces[i], c) {
        if i == 0 { assert Find(pieces[0], c) < |pieces[0]|; } else { assert !Lacks(pieces[1..][i - 1], c); }
      }
    }
  }

  /** A tab in the holder is a field too many. */
  lemma TabbedHolder(r: Record)
    requires !Lacks(r.holder, TAB)
    ensures |Split(ToLine(r), TAB)| > 7
  {
    assert !Lacks(Head(r)[4], TAB);
    TerminatedCount(Head(r), TAB, ToHex(r.rootId));
  }

  lemma PieceCount(p: string, c: char, b: string)
    ensures |Whole(p + [c] + b, c)| == |Whole(p, c)| + 1 + |Whole(b, c)|
  {
    var t, rest := Tail(p, c), [c] + b;
    assert p + [c] + b == p + rest && t + [c] + b == t + rest;
    TailLacks(p, c);
    assert |Whole(p + rest, c)| == |Whole(p, c)| + |Whole(t + rest, c)| by { SplitOn(p, rest, c); }
    assert |Whole(t + rest, c)| == 1 + |Whole(b, c)| by { SplitPiece(t, c, b); }
  }

  lemma FromLineSeven(v: Vocabulary, line: string)
    requires FromLine(v, line).Ok?
    ensures |Split(line, TAB)| == 7
  {}

  lemma FieldsBack(v: Vocabulary, r: Record)
    requires Typed(v, r)
    ensures FromFields(v, Head(r) + [ToHex(r.rootId)]) == Ok(r) <==>
              && r.expiry >= 0 && r.expiry % NANOS == 0 && r.expiry / NANOS <= MAX_SECS
              && !(r.kind == Once && r.delegation == Delegable)
  {
    WordsClean(r);
    HexBack(r.rootId);
    ParseU64Back(UnixSecs(r.expiry));
    assert (Head(r) + [ToHex(r.rootId)])[6] == ToHex(r.rootId);
  }

  /** A line reads back as the record written exactly when the record's own text can carry it. */
  lemma LineBack(v: Vocabulary, r: Record)
    requires Typed(v, r)
    ensures FromLine(v, ToLine(r)) == Ok(r) <==> Faithful(r)
  {
    if !Lacks(r.holder, TAB) {
      TabbedHolder(r);
    } else {
      WordsClean(r);
      PlainLacks(ToHex(r.rootId), TAB);
      LineFields(v, r, ToHex(r.rootId));
      FieldsBack(v, r);
    }
  }

  // --- a ledger's text ---

  /** A line's record, if it holds one; `line` is trimmed as every reader trims it. */
  function LineRecords(v: Vocabulary, line: string): seq<Record> {
    if Trim(line) == [] then []
    else match FromLine(v, Trim(line)) case Ok(r) => [r] case Err(_) => []
  }

  function Collect(v: Vocabulary, lines: seq<string>): seq<Record> {
    if lines == [] then [] else LineRecords(v, lines[0]) + Collect(v, lines[1..])
  }

  /** Every record the text holds, in order: what `Grants::load` and the gate's `parse` read. */
  function RecordsIn(v: Vocabulary, text: string): seq<Record> { Collect(v, Lines(text)) }

  lemma {:induction false} CollectAppend(v: Vocabulary, a: seq<string>, b: seq<string>)
    ensures Collect(v, a + b) == Collect(v, a) + Collect(v, b)
  {
    if a == [] {
      assert a + b == b;
    } else {
      assert (a + b)[1..] == a[1..] + b;
      CollectAppend(v, a[1..], b);
      Chain(LineRecords(v, a[0]), Collect(v, a[1..]), Collect(v, b));
    }
  }

  lemma CollectOne(v: Vocabulary, line: string)
    ensures Collect(v, [line]) == LineRecords(v, line)
  {}

  /** What an append puts first: a newline, when the last line lacks one. */
  function Fill(text: string): string { if text != [] && text[|text| - 1] != NL then [NL] else [] }

  lemma LinesFramedEnded(base: string, more: string)
    requires Tail(base, NL) == []
    ensures Lines(base + more) == Lines(base) + Lines(more)
  {
    SplitOn(base, more, NL);
    assert [] + more == more;
    LinesFromAppend(Whole(base, NL), Whole(more, NL), Tail(more, NL));
  }

  lemma LinesFramedTorn(base: string, more: string)
    requires Tail(base, NL) != []
    ensures var torn, whole := Tail(base, NL), Map(StripCr, Whole(base, NL));
            && Lines(base) == whole + [torn]
            && Lines(base + ([NL] + more)) == whole + ([StripCr(torn)] + Lines(more))
  {
    SplitTorn(base, more);
    LinesFromTorn(Whole(base, NL), Tail(base, NL), Whole(more, NL), Tail(more, NL));
  }

  lemma CollectTorn(v: Vocabulary, whole: seq<string>, torn: string, more: seq<string>)
    ensures Collect(v, whole + ([StripCr(torn)] + more)) == Collect(v, whole + [torn]) + Collect(v, more)
  {
    CollectAppend(v, whole, [StripCr(torn)] + more);
    CollectAppend(v, [StripCr(torn)], more);
    CollectAppend(v, whole, [torn]);
    CollectOne(v, torn);
    CollectOne(v, StripCr(torn));
    TrimStripCr(torn);
    Chain(Collect(v, whole), LineRecords(v, torn), Collect(v, more));
  }

  /** A text's records are its own, whatever is appended once its last line is ended. */
  lemma RecordsFramed(v: Vocabulary, base: string, more: string)
    ensures RecordsIn(v, base + (Fill(base) + more)) == RecordsIn(v, base) + RecordsIn(v, more)
  {
    TailEmpty(base, NL);
    if Tail(base, NL) == [] {
      LinesFramedEnded(base, more);
      assert Fill(base) + more == more;
      CollectAppend(v, Lines(base), Lines(more));
    } else {
      LinesFramedTorn(base, more);
      CollectTorn(v, Map(StripCr, Whole(base, NL)), Tail(base, NL), Lines(more));
    }
  }

  /** A line cut anywhere, its newline included, holds what the cut line holds. */
  lemma RecordsOfPiece(v: Vocabulary, line: string, k: nat)
    requires Lacks(line, NL) && k <= |line| + 1
    ensures RecordsIn(v, (line + [NL])[..k]) == LineRecords(v, line[..if k <= |line| then k else |line|])
  {
    if k <= |line| {
      var piece := line[..k];
      assert (line + [NL])[..k] == piece;
      SplitPiece(piece, NL, []);
      assert Lines(piece) == if piece == [] then [] else [piece];
      if piece != [] { CollectOne(v, piece); }
    } else {
      assert (line + [NL])[..k] == line + [NL] + [] && line[..|line|] == line;
      SplitPiece(line, NL, []);
      assert Whole([], NL) == [] && [line] + [] == [line];
      assert Lines(line + [NL] + []) == [StripCr(line)];
      CollectOne(v, StripCr(line));
      TrimStripCr(line);
    }
  }

  /** A record whose line survives the trim every reader makes, in one line of the file. */
  predicate Storable(v: Vocabulary, r: Record) {
    Typed(v, r) && Faithful(r) && r.rootId != [] && Lacks(ToLine(r), NL)
  }

  lemma StorableLine(v: Vocabulary, r: Record)
    requires Storable(v, r)
    ensures LineRecords(v, ToLine(r)) == [r]
  {
    WordsClean(r);
    HexBack(r.rootId);
    var line := ToLine(r);
    assert line[0] == KindWord(r.kind)[0];
    assert line[|line| - 1] == ToHex(r.rootId)[|ToHex(r.rootId)| - 1];
    TrimNone(line);
    LineBack(v, r);
  }

  /** The ledger's text once one record is appended whole. */
  function Appended(text: string, r: Record): string { text + (Fill(text) + (ToLine(r) + [NL])) }

  function AppendedAll(text: string, rs: seq<Record>): string
    decreases |rs|
  {
    if rs == [] then text else AppendedAll(Appended(text, rs[0]), rs[1..])
  }

  lemma LineAppended(v: Vocabulary, text: string, line: string)
    requires Lacks(line, NL)
    ensures RecordsIn(v, text + (Fill(text) + (line + [NL]))) == RecordsIn(v, text) + LineRecords(v, line)
  {
    RecordsFramed(v, text, line + [NL]);
    RecordsOfPiece(v, line, |line| + 1);
    assert (line + [NL])[..|line| + 1] == line + [NL] && line[..|line|] == line;
  }

  lemma AppendReadsBack(v: Vocabulary, text: string, r: Record)
    requires Storable(v, r)
    ensures RecordsIn(v, Appended(text, r)) == RecordsIn(v, text) + [r]
  {
    LineAppended(v, text, ToLine(r));
    StorableLine(v, r);
  }

  /** Records appended in sequence read back in order, every field equal, after whatever the file held. */
  lemma {:induction false} AppendsReadBack(v: Vocabulary, text: string, rs: seq<Record>)
    requires forall i :: 0 <= i < |rs| ==> Storable(v, rs[i])
    ensures RecordsIn(v, AppendedAll(text, rs)) == RecordsIn(v, text) + rs
    decreases |rs|
  {
    if rs == [] {
      assert RecordsIn(v, text) + [] == RecordsIn(v, text);
    } else {
      AppendReadsBack(v, text, rs[0]);
      AppendsReadBack(v, Appended(text, rs[0]), rs[1..]);
      assert rs == [rs[0]] + rs[1..];
      Chain(RecordsIn(v, text), [rs[0]], rs[1..]);
    }
  }

  // --- pruning ---

  /** Past its expiry at `now`, whole seconds since the epoch; a clock before the epoch expires nothing. */
  predicate RecordExpired(now: Option<nat>, r: Record) { now.Some? && r.expiry >= 0 && now.value > r.expiry / NANOS }

  predicate LineExpired(v: Vocabulary, now: Option<nat>, line: string) {
    var r := FromLine(v, Trim(line));
    r.Ok? && RecordExpired(now, r.value)
  }

  predicate Kept(v: Vocabulary, now: Option<nat>, line: string) { Trim(line) != [] && !LineExpired(v, now, line) }

  function CountExpired(v: Vocabulary, now: Option<nat>, lines: seq<string>): nat {
    if lines == [] then 0 else (if LineExpired(v, now, lines[0]) then 1 else 0) + CountExpired(v, now, lines[1..])
  }

  /** The lines a prune writes back. */
  function KeptLines(v: Vocabulary, now: Option<nat>, lines: seq<string>): seq<string> {
    if lines == [] then []
    else (if Kept(v, now, lines[0]) then [lines[0]] else []) + KeptLines(v, now, lines[1..])
  }

  function Pruned(v: Vocabulary, text: string, at: nat, now: Option<nat>): string {
    if CountExpired(v, now, Lines(text)) < at then text else Terminated(KeptLines(v, now, Lines(text)), NL)
  }

  lemma {:induction false} CountExpiredAppend(v: Vocabulary, now: Option<nat>, a: seq<string>, x: string)
    ensures CountExpired(v, now, a + [x]) == CountExpired(v, now, a) + if LineExpired(v, now, x) then 1 else 0
  {
    if a == [] {
      assert a + [x] == [x] && [x][1..] == [];
    } else {
      assert (a + [x])[1..] == a[1..] + [x];
      CountExpiredAppend(v, now, a[1..], x);
    }
  }

  lemma {:induction false} KeptLinesAppend(v: Vocabulary, now: Option<nat>, a: seq<string>, x: string)
    ensures KeptLines(v, now, a + [x]) == KeptLines(v, now, a) + if Kept(v, now, x) then [x] else []
  {
    if a == [] {
      assert a + [x] == [x] && [x][1..] == [];
    } else {
      assert (a + [x])[1..] == a[1..] + [x];
      KeptLinesAppend(v, now, a[1..], x);
    }
  }

  lemma {:induction false} TerminatedAppend(a: seq<string>, x: string, c: char)
    ensures Terminated(a + [x], c) == Terminated(a, c) + (x + [c])
  {
    if a == [] {
      assert a + [x] == [x] && [x][1..] == [];
    } else {
      assert (a + [x])[1..] == a[1..] + [x];
      TerminatedAppend(a[1..], x, c);
    }
  }

  /** The expired rows counted. */
  method ExpiredRows(v: Vocabulary, now: Option<nat>, lines: seq<string>) returns (expired: nat)
    ensures expired == CountExpired(v, now, lines)
  {
    expired := 0;
    for i := 0 to |lines|
      invariant expired == CountExpired(v, now, lines[..i])
    {
      CountExpiredAppend(v, now, lines[..i], lines[i]);
      assert lines[..i + 1] == lines[..i] + [lines[i]];
      if LineExpired(v, now, lines[i]) { expired := expired + 1; }
    }
    assert lines[..|lines|] == lines;
  }

  /** One line more of what a prune writes back. */
  lemma KeptTurn(v: Vocabulary, now: Option<nat>, lines: seq<string>, i: nat)
    requires i < |lines|
    ensures var was := Terminated(KeptLines(v, now, lines[..i]), NL);
            Terminated(KeptLines(v, now, lines[..i + 1]), NL) ==
            if Kept(v, now, lines[i]) then was + (lines[i] + [NL]) else was
  {
    KeptLinesAppend(v, now, lines[..i], lines[i]);
    assert lines[..i + 1] == lines[..i] + [lines[i]];
    if Kept(v, now, lines[i]) {
      TerminatedAppend(KeptLines(v, now, lines[..i]), lines[i], NL);
    } else {
      assert KeptLines(v, now, lines[..i]) + [] == KeptLines(v, now, lines[..i]);
    }
  }

  /** `prune_expired_at` over the text it read: what it writes back, or the text itself below the threshold. */
  method PruneExpired(v: Vocabulary, text: string, at: nat, now: Option<nat>) returns (r: string)
    ensures r == Pruned(v, text, at, now)
  {
    var lines := Lines(text);
    var expired := ExpiredRows(v, now, lines);
    if expired < at { return text; }
    var kept: string := "";
    for i := 0 to |lines|
      invariant kept == Terminated(KeptLines(v, now, lines[..i]), NL)
    {
      KeptTurn(v, now, lines, i);
      if Trim(lines[i]) != [] && !LineExpired(v, now, lines[i]) {
        kept := kept + (lines[i] + [NL]);
      }
    }
    assert lines[..|lines|] == lines;
    r := kept;
  }

  /** The trimmed lines of a text, blank ones aside: its rows, readable or not. */
  function Rows(lines: seq<string>): seq<string> {
    if lines == [] then [] else (if Trim(lines[0]) != [] then [Trim(lines[0])] else []) + Rows(lines[1..])
  }

  lemma {:induction false} KeptLinesLack(v: Vocabulary, now: Option<nat>, lines: seq<string>)
    requires forall i :: 0 <= i < |lines| ==> Lacks(lines[i], NL)
    ensures forall i :: 0 <= i < |KeptLines(v, now, lines)| ==> Lacks(KeptLines(v, now, lines)[i], NL)
  {
    if lines != [] { KeptLinesLack(v, now, lines[1..]); }
  }

  lemma LinesLack(text: string)
    ensures forall i :: 0 <= i < |Lines(text)| ==> Lacks(Lines(text)[i], NL)
  {
    TailLacks(text, NL);
  }

  lemma {:induction false} RowsOfKept(v: Vocabulary, now: Option<nat>, lines: seq<string>)
    ensures Rows(KeptLines(v, now, lines)) == KeptLines(v, now, Rows(lines))
  {
    if lines != [] {
      var t, rest := Trim(lines[0]), lines[1..];
      RowsOfKept(v, now, rest);
      TrimTwice(lines[0]);
      assert ([lines[0]] + KeptLines(v, now, rest))[1..] == KeptLines(v, now, rest);
      assert ([t] + Rows(rest))[1..] == Rows(rest);
      assert [] + KeptLines(v, now, rest) == KeptLines(v, now, rest);
      assert [] + Rows(rest) == Rows(rest);
      assert [] + KeptLines(v, now, Rows(rest)) == KeptLines(v, now, Rows(rest));
    }
  }

  lemma {:induction false} RowsStripCr(lines: seq<string>)
    ensures Rows(Map(StripCr, lines)) == Rows(lines)
  {
    if lines != [] {
      TrimStripCr(lines[0]);
      assert Map(StripCr, lines)[1..] == Map(StripCr, lines[1..]);
      RowsStripCr(lines[1..]);
    }
  }

  lemma TrimTwice(s: string)
    ensures Trim(Trim(s)) == Trim(s)
  {
    TrimEndClean(s);
    TrimStartClean(TrimEnd(s));
    TrimNone(Trim(s));
  }

  lemma {:induction false} TrimEndClean(s: string)
    ensures TrimEnd(s) == [] || !Space(TrimEnd(s)[|TrimEnd(s)| - 1])
  {
    if s != [] && Space(s[|s| - 1]) { TrimEndClean(s[..|s| - 1]); }
  }

  lemma {:induction false} TrimStartClean(s: string)
    requires s == [] || !Space(s[|s| - 1])
    ensures TrimStart(s) == [] || (!Space(TrimStart(s)[0]) && !Space(TrimStart(s)[|TrimStart(s)| - 1]))
  {
    if s != [] && Space(s[0]) { TrimStartClean(s[1..]); }
  }

  lemma TerminatedLines(pieces: seq<string>)
    requires forall i :: 0 <= i < |pieces| ==> Lacks(pieces[i], NL)
    ensures Lines(Terminated(pieces, NL)) == Map(StripCr, pieces)
  {
    TerminatedWhole(pieces, NL, []);
    assert Terminated(pieces, NL) + [] == Terminated(pieces, NL);
    assert pieces + [] == pieces;
  }

  /** A prune is all or nothing: below the threshold the text is untouched, and at it exactly the rows that
      read as expired go, every other row staying, readable or not, in order. */
  lemma PruneExact(v: Vocabulary, text: string, at: nat, now: Option<nat>)
    ensures CountExpired(v, now, Lines(text)) < at ==> Pruned(v, text, at, now) == text
    ensures CountExpired(v, now, Lines(text)) >= at ==>
              Rows(Lines(Pruned(v, text, at, now))) == KeptLines(v, now, Rows(Lines(text)))
  {
    var kept := KeptLines(v, now, Lines(text));
    LinesLack(text);
    KeptLinesLack(v, now, Lines(text));
    TerminatedLines(kept);
    RowsStripCr(kept);
    RowsOfKept(v, now, Lines(text));
  }

  /** The records not expired at `now`, in order. */
  function Live(now: Option<nat>, rs: seq<Record>): seq<Record> {
    if rs == [] then [] else (if RecordExpired(now, rs[0]) then [] else [rs[0]]) + Live(now, rs[1..])
  }

  lemma {:induction false} CollectRows(v: Vocabulary, lines: seq<string>)
    ensures Collect(v, lines) == Collect(v, Rows(lines))
  {
    if lines != [] {
      var t, rest := Trim(lines[0]), lines[1..];
      CollectRows(v, rest);
      TrimTwice(lines[0]);
      assert ([t] + Rows(rest))[1..] == Rows(rest) && [] + Rows(rest) == Rows(rest);
      assert [] + Collect(v, rest) == Collect(v, rest);
    }
  }

  lemma {:induction false} CollectKept(v: Vocabulary, now: Option<nat>, lines: seq<string>)
    ensures Collect(v, KeptLines(v, now, lines)) == Live(now, Collect(v, lines))
  {
    if lines != [] {
      var rest := lines[1..];
      CollectKept(v, now, rest);
      var rs, on := LineRecords(v, lines[0]), Collect(v, rest);
      var kept := KeptLines(v, now, rest);
      assert ([lines[0]] + kept)[1..] == kept && [] + kept == kept;
      if rs != [] {
        assert ([rs[0]] + on)[1..] == on && [] + Live(now, on) == Live(now, on);
      } else {
        assert [] + on == on && [] + Collect(v, kept) == Collect(v, kept);
      }
    }
  }

  /** No live row is lost to a prune, and none comes of one. */
  lemma PruneKeepsLive(v: Vocabulary, text: string, at: nat, now: Option<nat>)
    ensures RecordsIn(v, Pruned(v, text, at, now)) ==
            if CountExpired(v, now, Lines(text)) < at then RecordsIn(v, text) else Live(now, RecordsIn(v, text))
  {
    if CountExpired(v, now, Lines(text)) >= at {
      PruneExact(v, text, at, now);
      CollectRows(v, Lines(text));
      CollectRows(v, Lines(Pruned(v, text, at, now)));
      CollectKept(v, now, Rows(Lines(text)));
    }
  }

  /** A row has expired once its last whole second has passed. */
  predicate Over(now: Option<nat>, r: Record) { now.Some? && now.value * NANOS > r.expiry }

  /** What a row reads as ends on a whole second. */
  lemma ReadEnds(v: Vocabulary, line: string)
    ensures FromLine(v, line).Ok? ==>
              FromLine(v, line).value.expiry >= 0 && FromLine(v, line).value.expiry % NANOS == 0
  {}

  lemma OverExact(now: Option<nat>, r: Record)
    requires r.expiry >= 0 && r.expiry % NANOS == 0
    ensures RecordExpired(now, r) <==> Over(now, r)
  {
    if now.Some? {
      var q := r.expiry / NANOS;
      assert r.expiry == q * NANOS;
    }
  }

  lemma {:induction false} OversCounted(v: Vocabulary, now: Option<nat>, lines: seq<string>)
    ensures var rs := Collect(v, lines);
            && CountExpired(v, now, lines) == |Filter(r => Over(now, r), rs)|
            && Live(now, rs) == Filter(r => !Over(now, r), rs)
  {
    if lines != [] {
      var rs, rest := LineRecords(v, lines[0]), Collect(v, lines[1..]);
      OversCounted(v, now, lines[1..]);
      FromLineSevenOf(v, lines[0]);
      ReadEnds(v, Trim(lines[0]));
      if rs != [] {
        OverExact(now, rs[0]);
        assert rs + rest == [rs[0]] + rest && ([rs[0]] + rest)[1..] == rest;
      } else {
        assert rs + rest == rest;
      }
    }
  }

  /** An empty line reads as no row. */
  lemma FromLineSevenOf(v: Vocabulary, line: string)
    ensures Trim(line) == [] ==> FromLine(v, Trim(line)).Err?
  {
    if FromLine(v, Trim(line)).Ok? {
      FromLineSeven(v, Trim(line));
      assert Trim(line) == [] ==> Whole(Trim(line), TAB) == [];
    }
  }

  /** A prune of a ledger, by its rows: with fewer of them over than the threshold it keeps them all, and else exactly
      those not over, in order. */
  lemma PrunedRows(v: Vocabulary, text: string, at: nat, now: Option<nat>)
    ensures var rs := RecordsIn(v, text);
            RecordsIn(v, Pruned(v, text, at, now)) ==
            if |Filter(r => Over(now, r), rs)| < at then rs else Filter(r => !Over(now, r), rs)
  {
    PruneKeepsLive(v, text, at, now);
    OversCounted(v, now, Lines(text));
  }

  lemma {:induction false} LinesFiltered(v: Vocabulary, now: Option<nat>, lines: seq<string>)
    ensures KeptLines(v, now, Rows(lines)) ==
            Filter(t => !(FromLine(v, t).Ok? && Over(now, FromLine(v, t).value)), Rows(lines))
  {
    if lines != [] {
      var t, rest := Trim(lines[0]), Rows(lines[1..]);
      LinesFiltered(v, now, lines[1..]);
      TrimTwice(lines[0]);
      ReadEnds(v, t);
      if FromLine(v, t).Ok? { OverExact(now, FromLine(v, t).value); }
      assert ([t] + rest)[1..] == rest && [] + rest == rest;
    }
  }

  /** And by its lines, blank ones aside: at the threshold those go that read as a row that is over, and every other
      stays as it was, readable or not, in order. */
  lemma PrunedLines(v: Vocabulary, text: string, at: nat, now: Option<nat>)
    ensures var rs := RecordsIn(v, text);
            if |Filter(r => Over(now, r), rs)| < at then Pruned(v, text, at, now) == text
            else
              Rows(Lines(Pruned(v, text, at, now))) ==
              Filter(t => !(FromLine(v, t).Ok? && Over(now, FromLine(v, t).value)), Rows(Lines(text)))
  {
    OversCounted(v, now, Lines(text));
    PruneExact(v, text, at, now);
    LinesFiltered(v, now, Lines(text));
  }

  /** What a row keeps of when its link ends: the whole seconds, and the epoch for anything before it. */
  lemma WrittenEnds(v: Vocabulary, r: Record)
    requires FromLine(v, ToLine(r)).Ok? && Typed(v, r) && Lacks(r.holder, TAB)
    ensures var end := FromLine(v, ToLine(r)).value.expiry;
            if r.expiry < 0 then end == 0 else end <= r.expiry < end + NANOS
  {
    WordsClean(r);
    PlainLacks(ToHex(r.rootId), TAB);
    LineFields(v, r, ToHex(r.rootId));
    ParseU64Back(UnixSecs(r.expiry));
    assert (Head(r) + [ToHex(r.rootId)])[5] == ToDec(UnixSecs(r.expiry));
  }

  /** A line reads as a row, exactly: seven fields between tabs, each the one spelling of what it says, but for an end's
      leading zeros or `+` and the case of an id's letters. */
  lemma FromLineExact(v: Vocabulary, line: string, r: Record)
    ensures FromLine(v, line) == Ok(r) <==>
              var s := Split(line, TAB);
              && |s| == 7 && s[0] == KindWord(r.kind) && s[1] == DelegationWord(r.delegation)
              && !(r.kind.Once? && r.delegation.Delegable?)
              && s[2] == r.target && v.service(r.target)
              && (if s[3] == "-" then r.serves.None? else r.serves == Some(s[3]) && v.served(s[3]))
              && s[4] == r.holder
              && ParseU64(s[5]).Some? && ParseU64(s[5]).value <= MAX_SECS && r.expiry == ParseU64(s[5]).value * NANOS
              && Names.Fold(s[6]) == ToHex(r.rootId)
  {
    var s := Split(line, TAB);
    if |s| == 7 {
      HexExact(s[6], r.rootId);
      FromFieldsExact(v, s, r);
    } else if FromLine(v, line).Ok? {
      FromLineSeven(v, line);
      assert false;
    }
  }

  lemma FromFieldsExact(v: Vocabulary, s: seq<string>, r: Record)
    requires |s| == 7
    ensures FromFields(v, s) == Ok(r) <==>
              && s[0] == KindWord(r.kind) && s[1] == DelegationWord(r.delegation)
              && !(r.kind.Once? && r.delegation.Delegable?)
              && s[2] == r.target && v.service(r.target)
              && (if s[3] == "-" then r.serves.None? else r.serves == Some(s[3]) && v.served(s[3]))
              && s[4] == r.holder
              && ParseU64(s[5]).Some? && ParseU64(s[5]).value <= MAX_SECS && r.expiry == ParseU64(s[5]).value * NANOS
              && FromHex(s[6]) == Some(r.rootId)
  {
    KindWords(s[0], r.kind);
    DelegationWords(s[1], r.delegation);
    var x := FromFields(v, s);
    if x.Ok? {
      KindWords(s[0], x.value.kind);
      DelegationWords(s[1], x.value.delegation);
      assert x.value == Record(s[2], ParseServes(v, s[3]).value, x.value.kind, x.value.delegation, s[4],
                               FromHex(s[6]).value, ParseU64(s[5]).value * NANOS);
    }
  }

  lemma KindWords(text: string, kind: Kind)
    ensures ParseKind(text) == Ok(kind) <==> text == KindWord(kind)
  {}

  lemma DelegationWords(text: string, d: Delegation)
    ensures ParseDelegation(text) == Ok(d) <==> text == DelegationWord(d)
  {}

  lemma HexExact(text: string, b: Bytes)
    ensures FromHex(text) == Some(b) <==> Names.Fold(text) == ToHex(b)
  {
    FoldedHex(text);
    HexBack(b);
    HexUnfolds(text);
  }
}
