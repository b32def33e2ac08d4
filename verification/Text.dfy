/** Text as the ledger files hold it: lines, fields, decimal numbers and hex. */
module Text {
  import opened Wrappers
  import opened Codec
  import Names

  /** Rust's `char::is_whitespace`. */
  predicate Space(c: char) {
    var n := c as int;
    || 9 <= n <= 13 || n == 0x20 || n == 0x85 || n == 0xA0 || n == 0x1680 || 0x2000 <= n <= 0x200A
    || n == 0x2028 || n == 0x2029 || n == 0x202F || n == 0x205F || n == 0x3000
  }

  function TrimEnd(s: string): string {
    if s != [] && Space(s[|s| - 1]) then TrimEnd(s[..|s| - 1]) else s
  }

  function TrimStart(s: string): string {
    if s != [] && Space(s[0]) then TrimStart(s[1..]) else s
  }

  function Trim(s: string): string { TrimStart(TrimEnd(s)) }

  lemma TrimNone(s: string)
    requires s == [] || (!Space(s[0]) && !Space(s[|s| - 1]))
    ensures Trim(s) == s
  {}

  lemma {:induction false} TrimEndLacks(s: string, c: char)
    requires Lacks(s, c)
    ensures Lacks(TrimEnd(s), c)
  {
    if s != [] && Space(s[|s| - 1]) { TrimEndLacks(s[..|s| - 1], c); }
  }

  lemma {:induction false} TrimStartLacks(s: string, c: char)
    requires Lacks(s, c)
    ensures Lacks(TrimStart(s), c)
  {
    if s != [] && Space(s[0]) { TrimStartLacks(s[1..], c); }
  }

  lemma TrimLacks(s: string, c: char)
    requires Lacks(s, c)
    ensures Lacks(Trim(s), c)
  {
    TrimEndLacks(s, c);
    TrimStartLacks(TrimEnd(s), c);
  }

  /** What a trim leaves is the text between its outer spaces: neither end of it is one, and all it drops are. */
  lemma TrimExact(s: string)
    ensures exists i, j ::
              && 0 <= i <= j <= |s| && Trim(s) == s[i..j]
              && (forall k :: 0 <= k < i || j <= k < |s| ==> Space(s[k]))
              && (i < j ==> !Space(s[i]) && !Space(s[j - 1]))
  {
    var j := TrimEndAt(s);
    var i := TrimStartAt(s[..j]);
    assert s[..j][i..] == s[i..j];
    assert i < j ==> s[..j][i] == s[i];
    assert forall k :: 0 <= k < i ==> s[..j][k] == s[k];
  }

  lemma {:induction false} TrimEndAt(s: string) returns (j: nat)
    ensures j <= |s| && TrimEnd(s) == s[..j] && (forall k :: j <= k < |s| ==> Space(s[k]))
    ensures j > 0 ==> !Space(s[j - 1])
  {
    if s != [] && Space(s[|s| - 1]) {
      var front := s[..|s| - 1];
      j := TrimEndAt(front);
      assert front[..j] == s[..j];
      assert forall k :: j <= k < |front| ==> front[k] == s[k];
    } else {
      j := |s|;
    }
  }

  lemma {:induction false} TrimStartAt(s: string) returns (i: nat)
    ensures i <= |s| && TrimStart(s) == s[i..] && (forall k :: 0 <= k < i ==> Space(s[k]))
    ensures i < |s| ==> !Space(s[i])
  {
    if s != [] && Space(s[0]) {
      i := TrimStartAt(s[1..]);
      assert s[1..][i..] == s[i + 1..];
      i := i + 1;
    } else {
      i := 0;
    }
  }

  lemma TrimClean(s: string)
    ensures Trim(s) != [] ==> !Space(Trim(s)[0]) && !Space(Trim(s)[|Trim(s)| - 1])
  {
    TrimExact(s);
  }

  // --- splitting ---

  /** Where `c` first stands, or the length. */
  function Find(s: string, c: char): (i: nat)
    ensures i <= |s|
    ensures forall j :: 0 <= j < i ==> s[j] != c
    ensures i < |s| ==> s[i] == c
  {
    if s == [] || s[0] == c then 0 else 1 + Find(s[1..], c)
  }

  lemma FindIs(s: string, c: char, i: nat)
    requires i < |s| && s[i] == c && forall j :: 0 <= j < i ==> s[j] != c
    ensures Find(s, c) == i
  {}

  /** The pieces `c` ends. */
  function Whole(s: string, c: char): seq<string>
    decreases |s|
  {
    var i := Find(s, c);
    if i == |s| then [] else [s[..i]] + Whole(s[i + 1..], c)
  }

  /** What follows the last `c`. */
  function Tail(s: string, c: char): string
    decreases |s|
  {
    var i := Find(s, c);
    if i == |s| then s else Tail(s[i + 1..], c)
  }

  /** `str::split(c)`. */
  function Split(s: string, c: char): seq<string> { Whole(s, c) + [Tail(s, c)] }

  predicate Lacks(s: string, c: char) { forall i :: 0 <= i < |s| ==> s[i] != c }

  lemma {:induction false} TailLacks(s: string, c: char)
    ensures Lacks(Tail(s, c), c)
    ensures forall i :: 0 <= i < |Whole(s, c)| ==> Lacks(Whole(s, c)[i], c)
    decreases |s|
  {
    var i := Find(s, c);
    if i < |s| { TailLacks(s[i + 1..], c); }
  }

  /** What a text lacks its pieces lack. */
  lemma {:induction false} PiecesLack(s: string, c: char, other: char)
    requires Lacks(s, other)
    ensures forall i :: 0 <= i < |Split(s, c)| ==> Lacks(Split(s, c)[i], other)
    decreases |s|
  {
    var i := Find(s, c);
    if i < |s| {
      PiecesLack(s[i + 1..], c, other);
      assert Split(s, c) == [s[..i]] + Split(s[i + 1..], c);
    }
  }

  lemma SplitFirst(s: string, c: char, i: nat)
    requires i < |s| && s[i] == c && forall j :: 0 <= j < i ==> s[j] != c
    ensures Whole(s, c) == [s[..i]] + Whole(s[i + 1..], c)
    ensures Tail(s, c) == Tail(s[i + 1..], c)
  {
    FindIs(s, c, i);
  }

  /** Splitting a longer text goes on from where the shorter one stopped. */
  lemma {:induction false} SplitOn(a: string, b: string, c: char)
    ensures Whole(a + b, c) == Whole(a, c) + Whole(Tail(a, c) + b, c)
    ensures Tail(a + b, c) == Tail(Tail(a, c) + b, c)
    decreases |a|
  {
    var i := Find(a, c);
    if i < |a| {
      var rest := a[i + 1..];
      assert (a + b)[..i] == a[..i] && (a + b)[i + 1..] == rest + b;
      assert forall j :: 0 <= j < i ==> (a + b)[j] == a[j];
      SplitFirst(a + b, c, i);
      SplitFirst(a, c, i);
      SplitOn(rest, b, c);
      Chain([a[..i]], Whole(rest, c), Whole(Tail(a, c) + b, c));
    } else {
      assert Whole(a, c) == [] && Tail(a, c) == a;
    }
  }

  lemma Chain<T>(a: seq<T>, b: seq<T>, d: seq<T>)
    ensures a + (b + d) == (a + b) + d
  {}

  /** A piece without the separator, then the separator. */
  lemma SplitPiece(p: string, c: char, b: string)
    requires Lacks(p, c)
    ensures Whole(p + [c] + b, c) == [p] + Whole(b, c)
    ensures Tail(p + [c] + b, c) == Tail(b, c)
    ensures Whole(p, c) == [] && Tail(p, c) == p
  {
    var s := p + [c] + b;
    FindIs(s, c, |p|);
    assert s[..|p|] == p && s[|p| + 1..] == b;
  }

  lemma TailEmpty(s: string, c: char)
    ensures Tail(s, c) == [] <==> s == [] || s[|s| - 1] == c
  {
    if s != [] {
      var a, b := s[..|s| - 1], [s[|s| - 1]];
      assert s == a + b;
      SplitOn(a, b, c);
      TailLacks(a, c);
      if s[|s| - 1] == c {
        SplitPiece(Tail(a, c), c, []);
        assert Tail(a, c) + [c] + [] == Tail(a, c) + b;
      } else {
        var t := Tail(a, c) + b;
        assert Find(t, c) == |t|;
      }
    }
  }

  /** Pieces put together, each ended by `c`. */
  function Terminated(pieces: seq<string>, c: char): string {
    if pieces == [] then [] else pieces[0] + [c] + Terminated(pieces[1..], c)
  }

  /** One piece more, ahead of the others. */
  lemma TerminatedTurn(pieces: seq<string>, c: char, b: string)
    requires pieces != [] && Lacks(pieces[0], c)
    ensures var s, rest := Terminated(pieces, c) + b, Terminated(pieces[1..], c) + b;
            Whole(s, c) == [pieces[0]] + Whole(rest, c) && Tail(s, c) == Tail(rest, c)
  {
    SplitPiece(pieces[0], c, Terminated(pieces[1..], c) + b);
    Chain(pieces[0] + [c], Terminated(pieces[1..], c), b);
  }

  lemma {:induction false} TerminatedWhole(pieces: seq<string>, c: char, b: string)
    requires forall i :: 0 <= i < |pieces| ==> Lacks(pieces[i], c)
    ensures Whole(Terminated(pieces, c) + b, c) == pieces + Whole(b, c)
    ensures Tail(Terminated(pieces, c) + b, c) == Tail(b, c)
  {
    if pieces != [] {
      TerminatedWhole(pieces[1..], c, b);
      TerminatedTurn(pieces, c, b);
      Chain([pieces[0]], pieces[1..], Whole(b, c));
      assert [pieces[0]] + pieces[1..] == pieces;
    } else {
      assert Terminated(pieces, c) + b == b && pieces + Whole(b, c) == Whole(b, c);
    }
  }

  // --- lines ---

  const NL := '\n'

  function StripCr(s: string): string {
    if s != [] && s[|s| - 1] == '\r' then s[..|s| - 1] else s
  }

  lemma TrimStripCr(s: string)
    ensures Trim(StripCr(s)) == Trim(s)
  {}

  /** Ended lines, then what follows them when there is any. */
  function LinesFrom(whole: seq<string>, tail: string): seq<string> {
    Map(StripCr, whole) + if tail == [] then [] else [tail]
  }

  /** `str::lines`: an unended last line counts, and keeps a carriage return. */
  function Lines(text: string): seq<string> { LinesFrom(Whole(text, NL), Tail(text, NL)) }

  lemma LinesFromAppend(a: seq<string>, b: seq<string>, tail: string)
    ensures LinesFrom(a + b, tail) == Map(StripCr, a) + LinesFrom(b, tail)
  {
    MapAppend(StripCr, a, b);
  }

  lemma LinesFromTorn(whole: seq<string>, torn: string, more: seq<string>, tail: string)
    requires torn != []
    ensures LinesFrom(whole, torn) == Map(StripCr, whole) + [torn]
    ensures LinesFrom(whole + ([torn] + more), tail) == Map(StripCr, whole) + ([StripCr(torn)] + LinesFrom(more, tail))
  {
    LinesFromAppend(whole, [torn] + more, tail);
    LinesFromAppend([torn], more, tail);
    assert Map(StripCr, [torn]) == [StripCr(torn)];
  }

  /** A torn last line, ended at last, becomes a line of its own. */
  lemma SplitTorn(base: string, more: string)
    ensures Whole(base + ([NL] + more), NL) == Whole(base, NL) + ([Tail(base, NL)] + Whole(more, NL))
    ensures Tail(base + ([NL] + more), NL) == Tail(more, NL)
  {
    var torn := Tail(base, NL);
    TailLacks(base, NL);
    SplitOn(base, [NL] + more, NL);
    assert torn + ([NL] + more) == torn + [NL] + more;
    SplitPiece(torn, NL, more);
  }

  // --- numbers ---

  function DigitChar(d: nat): char
    requires d < 16
  {
    if d < 10 then ('0' as int + d) as char else ('a' as int + d - 10) as char
  }

  function ToDec(n: nat): (s: string)
    ensures |s| > 0
  {
    if n < 10 then [DigitChar(n)] else ToDec(n / 10) + [DigitChar(n % 10)]
  }

  predicate IsDec(s: string) { forall i :: 0 <= i < |s| ==> '0' <= s[i] <= '9' }

  function DecValue(s: string): nat
    requires IsDec(s)
  {
    if s == [] then 0 else DecValue(s[..|s| - 1]) * 10 + (s[|s| - 1] as int - '0' as int)
  }

  /** `str::parse::<u64>`: a `+` may lead, and zeros; nothing past the width. */
  function ParseU64(s: string): Option<nat> {
    var digits := if s != [] && s[0] == '+' then s[1..] else s;
    if digits != [] && IsDec(digits) && DecValue(digits) < 0x1_0000_0000_0000_0000 then Some(DecValue(digits))
    else None
  }

  /** A number is read from digits, a `+` before them or not, whose value fits 64 bits. */
  lemma ParseU64Exact(s: string, n: nat)
    ensures ParseU64(s) == Some(n) <==>
              exists digits: string ::
                && (s == digits || s == "+" + digits) && digits != []
                && IsDec(digits) && DecValue(digits) == n && n <= 18446744073709551615
  {
    if s != [] && s[0] == '+' { assert s == "+" + s[1..]; }
    if digits: string :| (s == digits || s == "+" + digits) && digits != [] && IsDec(digits) && DecValue(digits) == n
                         && n <= 18446744073709551615
    {
      if s == digits { assert s[0] != '+'; } else { assert s[1..] == digits; }
    }
  }

  lemma {:induction false} DecBack(n: nat)
    ensures IsDec(ToDec(n)) && DecValue(ToDec(n)) == n
  {
    if n >= 10 {
      DecBack(n / 10);
      var s := ToDec(n);
      assert s[..|s| - 1] == ToDec(n / 10);
    } else {
      assert ToDec(n)[..0] == [];
    }
  }

  lemma ParseU64Back(n: nat)
    ensures ParseU64(ToDec(n)) == if n < 0x1_0000_0000_0000_0000 then Some(n) else None
  {
    DecBack(n);
  }

  function ToHex(b: Bytes): string {
    if b == [] then [] else [DigitChar(b[0] / 16), DigitChar(b[0] % 16)] + ToHex(b[1..])
  }

  function HexDigit(c: char): Option<nat> {
    if '0' <= c <= '9' then Some(c as int - '0' as int)
    else if 'a' <= c <= 'f' then Some(c as int - 'a' as int + 10)
    else if 'A' <= c <= 'F' then Some(c as int - 'A' as int + 10)
    else None
  }

  /** Two digits a byte, either case; an odd digit out is no hex. */
  function FromHex(s: string): Option<Bytes> {
    if s == [] then Some([])
    else if |s| == 1 then None
    else
      match (HexDigit(s[0]), HexDigit(s[1]), FromHex(s[2..]))
      case (Some(h), Some(l), Some(rest)) => 
        HexDigitSmall(s[0]);
        HexDigitSmall(s[1]);
        Some([h * 16 + l] + rest)
      case _ => None
  }

  lemma HexDigitSmall(c: char)
    ensures HexDigit(c).Some? ==> HexDigit(c).value < 16
  {}

  lemma DigitBack(d: nat)
    requires d < 16
    ensures HexDigit(DigitChar(d)) == Some(d) && !Space(DigitChar(d))
    ensures DigitChar(d) != '\t' && DigitChar(d) != '\n' && DigitChar(d) != '.'
  {}

  predicate Plain(s: string) { forall i :: 0 <= i < |s| ==> !Space(s[i]) }

  lemma {:induction false} HexBack(b: Bytes)
    ensures FromHex(ToHex(b)) == Some(b) && |ToHex(b)| == 2 * |b| && Plain(ToHex(b))
  {
    if b != [] {
      HexBack(b[1..]);
      ByteBack(b[0], ToHex(b[1..]));
      assert b == [b[0]] + b[1..];
    }
  }

  /** A byte's two digits, ahead of others. */
  lemma ByteBack(x: byte, rest: string)
    ensures var s := [DigitChar(x / 16), DigitChar(x % 16)] + rest;
            && s[2..] == rest && Plain(s[..2])
            && (FromHex(rest).Some? ==> FromHex(s) == Some([x] + FromHex(rest).value))
  {
    DigitBack(x / 16);
    DigitBack(x % 16);
  }

  /** Bytes' hex, cut anywhere, spells some of those bytes if it spells any. */
  lemma {:induction false} HexCut(b: Bytes, n: nat)
    requires n <= |ToHex(b)|
    ensures var cut := FromHex(ToHex(b)[..n]); cut.Some? ==> cut.value <= b && n == 2 * |cut.value|
  {
    if n > 1 {
      DigitBack(b[0] / 16);
      DigitBack(b[0] % 16);
      assert ToHex(b)[2..] == ToHex(b[1..]);
      assert ToHex(b)[..n][2..] == ToHex(b[1..])[..n - 2];
      HexCut(b[1..], n - 2);
      assert b == [b[0]] + b[1..];
    }
  }

  /** What hex spells, its letters brought to lower case spell alike. */
  lemma {:induction false} HexUnfolds(s: string)
    ensures FromHex(Names.Fold(s)) == FromHex(s)
    decreases |s|
  {
    if |s| > 1 {
      assert Names.Fold(s)[2..] == Names.Fold(s[2..]);
      HexUnfolds(s[2..]);
      DigitUnfolds(s[0]);
      DigitUnfolds(s[1]);
    }
  }

  lemma DigitUnfolds(c: char)
    ensures HexDigit(Names.FoldChar(c)) == HexDigit(c)
    ensures HexDigit(c).Some? ==> HexDigit(c).value < 16 && DigitChar(HexDigit(c).value) == Names.FoldChar(c)
  {}

  /** And what spells bytes is, in lower case, their one spelling. */
  lemma {:induction false} FoldedHex(s: string)
    ensures FromHex(s).Some? ==> Names.Fold(s) == ToHex(FromHex(s).value)
    decreases |s|
  {
    if |s| > 1 && FromHex(s).Some? {
      FoldedHex(s[2..]);
      FoldedByte(s);
      assert Names.Fold(s)[2..] == Names.Fold(s[2..]);
    }
  }

  lemma FoldedByte(s: string)
    requires |s| > 1 && FromHex(s).Some?
    ensures var b := FromHex(s).value;
            b != [] && FromHex(s[2..]) == Some(b[1..])
            && ToHex(b) == Names.Fold(s)[..2] + ToHex(b[1..])
  {
    DigitUnfolds(s[0]);
    DigitUnfolds(s[1]);
    var h, l, rest := HexDigit(s[0]).value, HexDigit(s[1]).value, FromHex(s[2..]).value;
    var b := FromHex(s).value;
    Nibbles(h, l);
    assert b == [h * 16 + l] + rest;
    assert b[0] == h * 16 + l && b[1..] == rest;
    FirstTwo(s);
  }

  lemma Nibbles(h: nat, l: nat)
    requires h < 16 && l < 16
    ensures (h * 16 + l) / 16 == h && (h * 16 + l) % 16 == l
  {}

  lemma FirstTwo(s: string)
    requires |s| > 1
    ensures Names.Fold(s)[..2] == [Names.FoldChar(s[0]), Names.FoldChar(s[1])]
  {}

  lemma {:induction false} DecPlain(n: nat)
    ensures Plain(ToDec(n))
  {
    if n >= 10 { DecPlain(n / 10); DigitBack(n % 10); } else { DigitBack(n); }
  }
}
