/** The `invite:` token: its two shapes, and the one spelling a key has in it. */
module Invite {
  import opened Wrappers
  import opened Names
  import opened Codec
  import opened Text

  const PREFIX := "invite:"
  const DOT := '.'
  const SEED_LEN := 32

  // --- bits ---

  /** The low `w` bits of `n`, most significant first. */
  function Bits(n: nat, w: nat): (b: seq<bool>)
    ensures |b| == w
  {
    if w == 0 then [] else Bits(n / 2, w - 1) + [n % 2 == 1]
  }

  function Value(b: seq<bool>): nat {
    if b == [] then 0 else Value(b[..|b| - 1]) * 2 + if b[|b| - 1] then 1 else 0
  }

  function Pow2(k: nat): nat { if k == 0 then 1 else 2 * Pow2(k - 1) }

  lemma {:induction false} ValueOfBits(n: nat, w: nat)
    requires n < Pow2(w)
    ensures Value(Bits(n, w)) == n
  {
    if w > 0 {
      ValueOfBits(n / 2, w - 1);
      assert Bits(n, w)[..w - 1] == Bits(n / 2, w - 1);
    }
  }

  lemma {:induction false} BitsOfValue(b: seq<bool>)
    ensures Bits(Value(b), |b|) == b && Value(b) < Pow2(|b|)
  {
    if b != [] {
      BitsOfValue(b[..|b| - 1]);
      assert b == b[..|b| - 1] + [b[|b| - 1]];
    }
  }

  /** Words of `w` bits, end to end. */
  function Unpack(words: seq<nat>, w: nat): (b: seq<bool>)
    ensures |b| == |words| * w
  {
    if words == [] then [] else
      assert |words| * w == w + (|words| - 1) * w;
      Bits(words[0], w) + Unpack(words[1..], w)
  }

  function Pack(b: seq<bool>, w: nat): (words: seq<nat>)
    requires w > 0 && Multiple(|b|, w)
    ensures |words| * w == |b|
    decreases |b|
  {
    if b == [] then []
    else
      var rest := Pack(b[w..], w);
      assert (|rest| + 1) * w == |rest| * w + w;
      [Value(b[..w])] + rest
  }

  /** A whole number of words. */
  predicate Multiple(n: nat, w: nat)
    requires w > 0
  {
    n == 0 || (n >= w && Multiple(n - w, w))
  }

  lemma {:induction false} WholeWords(q: nat, w: nat)
    requires w > 0
    ensures Multiple(q * w, w)
  {
    if q > 0 {
      WholeWords(q - 1, w);
      assert q * w == (q - 1) * w + w;
    }
  }

  lemma {:induction false} Fives(n: nat)
    requires n % 5 == 0
    ensures Multiple(n, 5)
  {
    if n > 0 { Fives(n - 5); }
  }

  lemma {:induction false} PackUnpack(words: seq<nat>, w: nat)
    requires w > 0 && forall i :: 0 <= i < |words| ==> words[i] < Pow2(w)
    ensures Multiple(|Unpack(words, w)|, w) && Pack(Unpack(words, w), w) == words
  {
    WholeWords(|words|, w);
    if words != [] {
      PackUnpack(words[1..], w);
      ValueOfBits(words[0], w);
      var b := Unpack(words, w);
      assert b[..w] == Bits(words[0], w) && b[w..] == Unpack(words[1..], w);
    }
  }

  lemma UnpackFirst(x: nat, words: seq<nat>, w: nat)
    ensures Unpack([x] + words, w) == Bits(x, w) + Unpack(words, w)
  {
    assert ([x] + words)[1..] == words;
  }

  lemma {:induction false} UnpackPack(b: seq<bool>, w: nat)
    requires w > 0 && Multiple(|b|, w)
    ensures Unpack(Pack(b, w), w) == b
    ensures forall i :: 0 <= i < |Pack(b, w)| ==> Pack(b, w)[i] < Pow2(w)
    decreases |b|
  {
    if b != [] {
      UnpackPack(b[w..], w);
      BitsOfValue(b[..w]);
      UnpackFirst(Value(b[..w]), Pack(b[w..], w), w);
      assert b == b[..w] + b[w..];
    }
  }

  // --- unpadded base32, section 6 of RFC 4648 ---

  function Letter32(v: nat): char
    requires v < 32
  {
    if v < 26 then ('A' as int + v) as char else ('2' as int + v - 26) as char
  }

  function Letter32Value(c: char): Option<nat> {
    if 'A' <= c <= 'Z' then Some(c as int - 'A' as int)
    else if '2' <= c <= '7' then Some(c as int - '2' as int + 26)
    else None
  }

  function Zeros(k: nat): seq<bool> { seq(k, i => false) }

  /** How many zero bits fill the last letter. */
  function Padding(bytes: nat): nat { (5 - bytes * 8 % 5) % 5 }

  lemma FillsFives(n: nat)
    ensures (n + (5 - n % 5) % 5) % 5 == 0
  {
    assert n == 5 * (n / 5) + n % 5;
  }

  lemma PaddingFits(bytes: nat)
    ensures Multiple(bytes * 8 + Padding(bytes), 5) && Padding(bytes) < 5
  {
    FillsFives(bytes * 8);
    Fives(bytes * 8 + Padding(bytes));
  }

  lemma Powers()
    ensures Pow2(5) == 32 && Pow2(8) == 256
  {
    assert Pow2(1) == 2 && Pow2(2) == 4 && Pow2(3) == 8 && Pow2(4) == 16 && Pow2(5) == 32;
    assert Pow2(6) == 64 && Pow2(7) == 128;
  }

  function Letters(values: seq<nat>): string
    requires forall i :: 0 <= i < |values| ==> values[i] < 32
  {
    seq(|values|, i requires 0 <= i < |values| => Letter32(values[i]))
  }

  function Encode32(b: Bytes): string {
    PaddingFits(|b|);
    var bits := Unpack(b, 8) + Zeros(Padding(|b|));
    Powers();
    UnpackPack(bits, 5);
    Letters(Pack(bits, 5))
  }

  /** Decoding is strict: every letter in the alphabet, no letter more than the bytes need, and the bits past
      the last byte zero. */
  function Decode32(s: string): Option<seq<nat>> {
    if exists i :: 0 <= i < |s| && Letter32Value(s[i]).None? then None
    else
      var bits := Unpack(seq(|s|, i requires 0 <= i < |s| => Letter32Value(s[i]).value), 5);
      var n := |bits| / 8;
      if |bits| - 8 * n >= 5 || (exists i :: 8 * n <= i < |bits| && bits[i]) then None
      else
        WholeWords(n, 8);
        Some(Pack(bits[..8 * n], 8))
  }

  lemma LetterBack(v: nat)
    requires v < 32
    ensures Letter32Value(Letter32(v)) == Some(v) && Upper(Letter32(v)) == (v < 26) && Letter32(v) != DOT
  {}

  lemma LetterOf(c: char)
    requires Letter32Value(c).Some?
    ensures Letter32Value(c).value < 32 && Letter32(Letter32Value(c).value) == c
  {}

  /** What is encoded decodes to itself. */
  lemma Decode32Back(b: Bytes)
    ensures Decode32(Encode32(b)) == Some(b)
  {
    Powers();
    PaddingFits(|b|);
    var bits := Unpack(b, 8) + Zeros(Padding(|b|));
    UnpackPack(bits, 5);
    var values, s := Pack(bits, 5), Encode32(b);
    forall i | 0 <= i < |s| ensures Letter32Value(s[i]) == Some(values[i]) { LetterBack(values[i]); }
    assert seq(|s|, i requires 0 <= i < |s| => Letter32Value(s[i]).value) == values;
    assert |bits| == 8 * |b| + Padding(|b|) && |bits| / 8 == |b|;
    assert bits[..8 * |b|] == Unpack(b, 8);
    PackUnpack(b, 8);
  }

  /** And decodes from nothing else: each byte string has one upper-case spelling, zero bits included. */
  lemma Encode32Back(s: string)
    requires Decode32(s).Some?
    ensures forall i :: 0 <= i < |Decode32(s).value| ==> Decode32(s).value[i] < 256
    ensures Encode32(Decode32(s).value) == s
  {
    Powers();
    var values := seq(|s|, i requires 0 <= i < |s| => Letter32Value(s[i]).value);
    forall i | 0 <= i < |s| ensures values[i] < 32 && Letter32(values[i]) == s[i] { LetterOf(s[i]); }
    var bits := Unpack(values, 5);
    var n := |bits| / 8;
    WholeWords(n, 8);
    UnpackPack(bits[..8 * n], 8);
    var b := Decode32(s).value;
    assert |b| == n;
    PaddingExact(|s|, n);
    assert bits == bits[..8 * n] + Zeros(Padding(n));
    PackUnpack(values, 5);
  }

  lemma PaddingExact(letters: nat, n: nat)
    requires n == 5 * letters / 8 && 5 * letters - 8 * n < 5
    ensures 5 * letters - 8 * n == Padding(n)
  {}

  // --- the seed ---

  datatype InviteError = NotAnInvite | BadEncoding | BadLength | BadFrom | BadName | BadStanding

  function RaiseChar(c: char): char { if Lower(c) then (c as int - 32) as char else c }
  function Raise(s: string): string { Map(RaiseChar, s) }

  function EncodeSeed(seed: Bytes): string { Fold(Encode32(seed)) }

  /** Only ASCII folds: a letter outside it is no letter of a seed. */
  function ParseSeed(text: string): Result<seq<nat>, InviteError> {
    if !IsAscii(text) then Err(BadEncoding)
    else match Decode32(Raise(text))
      case None => Err(BadEncoding)
      case Some(b) => if |b| != SEED_LEN then Err(BadLength) else Ok(b)
  }

  lemma EncodeSeedClean(seed: Bytes)
    ensures IsAscii(EncodeSeed(seed)) && Raise(EncodeSeed(seed)) == Encode32(seed)
    ensures Lacks(EncodeSeed(seed), DOT) && Fold(EncodeSeed(seed)) == EncodeSeed(seed)
  {
    PaddingFits(|seed|);
    Powers();
    var bits := Unpack(seed, 8) + Zeros(Padding(|seed|));
    UnpackPack(bits, 5);
    var values, s := Pack(bits, 5), Encode32(seed);
    forall i | 0 <= i < |s| ensures 'A' <= s[i] <= 'Z' || '2' <= s[i] <= '7' { assert s[i] == Letter32(values[i]); }
  }

  /** A text spells a seed exactly when folding its case gives the seed's one lower-case spelling. */
  lemma SeedExact(text: string, seed: Bytes)
    requires |seed| == SEED_LEN
    ensures ParseSeed(text) == Ok(seed) <==> IsAscii(text) && Fold(text) == EncodeSeed(seed)
  {
    EncodeSeedClean(seed);
    Decode32Back(seed);
    if IsAscii(text) && Decode32(Raise(text)) == Some(seed) {
      Encode32Back(Raise(text));
      assert Fold(Raise(text)) == Fold(text);
    }
    if IsAscii(text) && Fold(text) == EncodeSeed(seed) {
      assert Raise(Fold(text)) == Raise(text);
    }
  }

  // --- the token ---

  /** The foreign fields: a machine's key and its text, and which text is a link. A link keeps its text. */
  datatype Formats<!Node> = Formats(parseNode: string -> Option<Node>, showNode: Node -> string, link: string -> bool)

  datatype Token<+Node> = Token(seed: Option<Bytes>, from: Node, name: string, standing: string)

  function Show<Node>(f: Formats<Node>, t: Token<Node>): string {
    var rest := f.showNode(t.from) + [DOT] + (t.name + [DOT] + t.standing);
    PREFIX + if t.seed.Some? then EncodeSeed(t.seed.value) + [DOT] + rest else rest
  }

  function ParseFields<Node>(f: Formats<Node>, fields: seq<string>)
    : Result<(Option<seq<nat>>, Node, string, string), InviteError>
  {
    if |fields| != 4 && |fields| != 5 then Err(NotAnInvite)
    else
      var rest := if |fields| == 4 then fields else fields[1..];
      var seed :- if |fields| == 4 then Ok(None)
                  else (match ParseSeed(fields[0]) case Ok(b) => Ok(Some(b)) case Err(e) => Err(e));
      var from := f.parseNode(rest[0]);
      if from.None? then Err(BadFrom)
      else
        var name := Names.Parse(rest[1]);
        if name.Err? || name.value in RESERVED then Err(InviteError.BadName)
        else
          var standing := rest[2] + [DOT] + rest[3];
          if f.link(standing) then Ok((seed, from.value, name.value, standing)) else Err(InviteError.BadStanding)
  }

  /** `Invite::parse`: the prefix in any case, then the fields between the dots. */
  function Parse<Node>(f: Formats<Node>, text: string): Result<(Option<seq<nat>>, Node, string, string), InviteError> {
    var token := Trim(text);
    if |token| < |PREFIX| || Fold(token[..|PREFIX|]) != PREFIX then Err(NotAnInvite)
    else ParseFields(f, Split(token[|PREFIX|..], DOT))
  }

  /** What the foreign types promise of an invite: a key's text reads back and holds no dot, a link's text holds
      exactly one, and neither opens or ends with a space. */
  predicate Sound<Node(==)>(f: Formats<Node>, t: Token<Node>) {
    && (t.seed.Some? ==> |t.seed.value| == SEED_LEN)
    && f.parseNode(f.showNode(t.from)) == Some(t.from) && Lacks(f.showNode(t.from), DOT)
    && IsLabel(t.name)
    && f.link(t.standing) && |Split(t.standing, DOT)| == 2
    && t.standing != [] && !Space(t.standing[|t.standing| - 1])
  }

  lemma NameLacksDot(name: string)
    requires IsName(name)
    ensures Lacks(name, DOT) && Fold(name) == name
  {}

  function FieldsOf<Node>(f: Formats<Node>, t: Token<Node>): seq<string>
    requires |Split(t.standing, DOT)| == 2
  {
    var link := Split(t.standing, DOT);
    (if t.seed.Some? then [EncodeSeed(t.seed.value)] else []) + [f.showNode(t.from), t.name, link[0], link[1]]
  }

  /** The fields of a printed invite are the fields printed. */
  lemma ShownFields<Node>(f: Formats<Node>, t: Token<Node>)
    requires Sound(f, t)
    ensures var body := Show(f, t)[|PREFIX|..];
            Show(f, t)[..|PREFIX|] == PREFIX && Split(body, DOT) == FieldsOf(f, t)
  {
    var rest := f.showNode(t.from) + [DOT] + (t.name + [DOT] + t.standing);
    RestFields(f, t);
    if t.seed.Some? {
      var seed := EncodeSeed(t.seed.value);
      EncodeSeedClean(t.seed.value);
      SplitPiece(seed, DOT, rest);
      assert Show(f, t)[|PREFIX|..] == seed + [DOT] + rest;
      Chain([seed], Whole(rest, DOT), [Tail(rest, DOT)]);
    } else {
      assert Show(f, t)[|PREFIX|..] == rest;
    }
  }

  lemma RestFields<Node>(f: Formats<Node>, t: Token<Node>)
    requires Sound(f, t)
    ensures var link := Split(t.standing, DOT);
            Split(f.showNode(t.from) + [DOT] + (t.name + [DOT] + t.standing), DOT)
            == [f.showNode(t.from), t.name, link[0], link[1]]
  {
    var from, tail := f.showNode(t.from), t.name + [DOT] + t.standing;
    NameLacksDot(t.name);
    SplitPiece(t.name, DOT, t.standing);
    SplitPiece(from, DOT, tail);
    assert Whole(t.standing, DOT) == [Split(t.standing, DOT)[0]];
  }

  lemma SplitTwo(s: string, c: char)
    requires |Split(s, c)| == 2
    ensures s == Split(s, c)[0] + [c] + Split(s, c)[1]
  {
    var i := Find(s, c);
    SplitFirst(s, c, i);
    var rest := s[i + 1..];
    assert Whole(rest, c) == [] by { assert |Whole(s, c)| == 1 + |Whole(rest, c)|; }
    assert Find(rest, c) == |rest|;
    assert s == s[..i] + [c] + rest;
  }

  lemma FieldsBack<Node>(f: Formats<Node>, t: Token<Node>)
    requires Sound(f, t)
    ensures ParseFields(f, FieldsOf(f, t)) == Ok((t.seed, t.from, t.name, t.standing))
  {
    NameLacksDot(t.name);
    SplitTwo(t.standing, DOT);
    var link := Split(t.standing, DOT);
    var rest := [f.showNode(t.from), t.name, link[0], link[1]];
    if t.seed.Some? {
      EncodeSeedClean(t.seed.value);
      SeedExact(EncodeSeed(t.seed.value), t.seed.value);
      assert FieldsOf(f, t)[1..] == rest && FieldsOf(f, t)[0] == EncodeSeed(t.seed.value);
    } else {
      assert FieldsOf(f, t) == rest;
    }
  }

  /** A printed invite parses to the invite it is, in both shapes. */
  lemma InviteBack<Node>(f: Formats<Node>, t: Token<Node>)
    requires Sound(f, t)
    ensures Parse(f, Show(f, t)) == Ok((t.seed, t.from, t.name, t.standing))
  {
    ShownFields(f, t);
    FieldsBack(f, t);
    ShownTrims(f, t);
    PrefixFolds();
  }

  lemma PrefixFolds()
    ensures Fold(PREFIX) == PREFIX
  {}

  lemma ShownTrims<Node>(f: Formats<Node>, t: Token<Node>)
    requires Sound(f, t)
    ensures Trim(Show(f, t)) == Show(f, t)
  {
    var text := Show(f, t);
    assert text[0] == PREFIX[0] && text[|text| - 1] == t.standing[|t.standing| - 1];
    TrimNone(text);
  }

  /** The number of fields alone fixes the shape: an invite carries a key exactly when it has five. */
  lemma ShapeByCount<Node>(f: Formats<Node>, text: string)
    requires Parse(f, text).Ok?
    ensures var n := |Split(Trim(text)[|PREFIX|..], DOT)|;
            && (n == 4 || n == 5)
            && (Parse(f, text).value.0.Some? <==> n == 5)
  {}

  /** What parses, exactly: the prefix in any case, and after it, between dots, the seed if there is one, a machine's
      key, a name that may be given, and the two parts of a link. */
  lemma ParseExact<Node>(
    f: Formats<Node>, text: string, seed: Option<seq<nat>>, from: Node, name: string, standing: string)
    ensures Parse(f, text) == Ok((seed, from, name, standing)) <==>
              var t := Trim(text);
              && |t| >= |PREFIX| && Fold(t[..|PREFIX|]) == PREFIX
              && var s, k := Split(t[|PREFIX|..], DOT), if seed.Some? then 1 else 0;
                 && |s| == 4 + k
                 && (seed.Some? ==> ParseSeed(s[0]) == Ok(seed.value))
                 && f.parseNode(s[k]) == Some(from)
                 && Fold(s[k + 1]) == name && IsLabel(name)
                 && standing == s[k + 2] + [DOT] + s[k + 3] && f.link(standing)
  {
    var t := Trim(text);
    if |t| >= |PREFIX| && Fold(t[..|PREFIX|]) == PREFIX {
      FieldsExact(f, Split(t[|PREFIX|..], DOT), seed, from, name, standing);
    }
  }

  lemma FieldsExact<Node>(
    f: Formats<Node>, s: seq<string>, seed: Option<seq<nat>>, from: Node, name: string, standing: string)
    ensures ParseFields(f, s) == Ok((seed, from, name, standing)) <==>
              var k := if seed.Some? then 1 else 0;
              && |s| == 4 + k
              && (seed.Some? ==> ParseSeed(s[0]) == Ok(seed.value))
              && f.parseNode(s[k]) == Some(from)
              && Fold(s[k + 1]) == name && IsLabel(name)
              && standing == s[k + 2] + [DOT] + s[k + 3] && f.link(standing)
  {
    if |s| == 4 || |s| == 5 {
      var rest := if |s| == 4 then s else s[1..];
      NameParses(rest[1], name);
    }
  }

  lemma NameParses(text: string, name: string)
    ensures Names.Parse(text) == Ok(name) && name !in RESERVED <==> Fold(text) == name && IsLabel(name)
  {}
}
