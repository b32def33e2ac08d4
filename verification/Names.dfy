/** The one name rule, and the name a hostname suggests. */
module Names {
  import opened Wrappers

  const MAX_LEN := 63
  const RESERVED: set<string> := {"me", "root", "anyone", "control", "lookup"}

  datatype NameError = NotAName(text: string) | Reserved(name: string)

  predicate Lower(c: char) { 'a' <= c <= 'z' }
  predicate Upper(c: char) { 'A' <= c <= 'Z' }
  predicate Digit(c: char) { '0' <= c <= '9' }

  /** Rust's `to_ascii_lowercase` for one character. */
  function FoldChar(c: char): char {
    if Upper(c) then (c as int + 32) as char else c
  }

  function Fold(text: string): string { Map(FoldChar, text) }

  /** A name already folded: the one spelling that is stored. */
  predicate IsName(text: string) {
    && 0 < |text| <= MAX_LEN
    && (Lower(text[0]) || Digit(text[0]))
    && forall i :: 0 <= i < |text| ==> Lower(text[i]) || Digit(text[i]) || text[i] == '-'
  }

  function Parse(text: string): Result<string, NameError> {
    var folded := Fold(text);
    if IsName(folded) then Ok(folded) else Err(NotAName(text))
  }

  function Unreserved(name: string): Result<string, NameError> {
    if name in RESERVED then Err(Reserved(name)) else Ok(name)
  }

  /** What was stored is taken letter for letter, or refused. */
  function Stored(text: string): Result<string, NameError> {
    var name :- Parse(text);
    if name != text then Err(NotAName(text)) else Ok(name)
  }

  /** A device label as `DeviceLabel::stored` reads it. */
  function StoredLabel(text: string): Result<string, NameError> {
    var name :- Stored(text);
    Unreserved(name)
  }

  predicate IsLabel(text: string) { IsName(text) && text !in RESERVED }

  lemma FoldName(text: string)
    requires IsName(text)
    ensures Fold(text) == text
  {}

  /** A stored label has one spelling: what is read is what was written, and every label reads back. */
  lemma StoredLabelExact(text: string)
    ensures StoredLabel(text) == Ok(text) <==> IsLabel(text)
    ensures StoredLabel(text).Ok? ==> StoredLabel(text).value == text
  {}

  /** Typing a name in capitals names the same thing, and the folded spelling is a fixed point. */
  lemma ParseFolds(text: string)
    ensures Parse(text).Ok? ==> IsName(Parse(text).value) && Parse(Parse(text).value) == Parse(text)
    ensures Parse(Fold(text)).Ok? <==> Parse(text).Ok?
  {
    assert Fold(Fold(text)) == Fold(text);
  }

  /** A typed name, exactly: letters, digits and `-`, at most 63 of them and at least one, the first no `-`; and what is
      kept is the same in lower case. */
  lemma NameExact(text: string, name: string)
    ensures Parse(text) == Ok(name) <==>
              && 1 <= |text| <= 63 && |name| == |text| && text[0] != '-'
              && forall i :: 0 <= i < |text| ==>
                   || (name[i] == text[i] && ('a' <= text[i] <= 'z' || '0' <= text[i] <= '9' || text[i] == '-'))
                   || ('A' <= text[i] <= 'Z' && name[i] as int == text[i] as int + 32)
  {
    var folded := Fold(text);
    if Parse(text) == Ok(name) {
      forall i | 0 <= i < |text|
        ensures || (name[i] == text[i] && ('a' <= text[i] <= 'z' || '0' <= text[i] <= '9' || text[i] == '-'))
                || ('A' <= text[i] <= 'Z' && name[i] as int == text[i] as int + 32)
      {
        assert folded[i] == FoldChar(text[i]);
      }
      assert folded[0] == FoldChar(text[0]);
    } else if |name| == |text| && forall i :: 0 <= i < |text| ==> name[i] == FoldChar(text[i]) {
      assert folded == name;
    }
  }

  // --- the name a hostname suggests ---

  function Letter(c: char): char {
    var c := FoldChar(c);
    if Lower(c) || Digit(c) then c else '-'
  }

  /** One character more of the hostname: a `-` never starts the name and never follows another. */
  function Push(name: string, c: char): string {
    if Letter(c) == '-' && (name == [] || name[|name| - 1] == '-') then name else name + [Letter(c)]
  }

  function Squash(head: string): string {
    if head == [] then [] else Push(Squash(head[..|head| - 1]), head[|head| - 1])
  }

  function TrimDashes(name: string): string {
    if name != [] && name[|name| - 1] == '-' then TrimDashes(name[..|name| - 1]) else name
  }

  function BeforeDot(hostname: string): string {
    if hostname == [] || hostname[0] == '.' then [] else [hostname[0]] + BeforeDot(hostname[1..])
  }

  function Cut(name: string): string {
    if |name| <= MAX_LEN then name else name[..MAX_LEN]
  }

  function Suggested(hostname: string): Option<string> {
    match Parse(Cut(TrimDashes(Squash(BeforeDot(hostname)))))
    case Err(_) => None
    case Ok(name) => if name in RESERVED then None else Some(name)
  }

  method SuggestedFrom(hostname: string) returns (r: Option<string>)
    ensures r == Suggested(hostname)
  {
    var head := BeforeDot(hostname);
    var name: string := "";
    for i := 0 to |head|
      invariant name == Squash(head[..i])
    {
      assert head[..i + 1][..i] == head[..i];
      var c := Letter(head[i]);
      if c == '-' && (name == [] || name[|name| - 1] == '-') {
        continue;
      }
      name := name + [c];
    }
    assert head[..|head|] == head;
    name := Cut(TrimDashes(name));
    match Parse(name)
    case Err(_) => return None;
    case Ok(parsed) => return if parsed in RESERVED then None else Some(parsed);
  }

  /** Built from the alphabet, never opening with `-`, never doubling it. */
  predicate Tidy(name: string) {
    && (name != [] ==> name[0] != '-')
    && (forall i :: 0 <= i < |name| ==> Lower(name[i]) || Digit(name[i]) || name[i] == '-')
    && (forall i :: 0 < i < |name| ==> !(name[i - 1] == '-' && name[i] == '-'))
  }

  lemma {:induction false} SquashTidy(head: string)
    ensures Tidy(Squash(head))
    ensures Squash(head) == [] <==> forall i :: 0 <= i < |head| ==> Letter(head[i]) == '-'
  {
    if head != [] {
      SquashTidy(head[..|head| - 1]);
      var front := head[..|head| - 1];
      assert forall i :: 0 <= i < |front| ==> front[i] == head[i];
    }
  }

  lemma {:induction false} TrimDashesTidy(name: string)
    requires Tidy(name)
    ensures Tidy(TrimDashes(name)) && (TrimDashes(name) == [] <==> name == [])
  {
    if name != [] && name[|name| - 1] == '-' {
      TrimDashesTidy(name[..|name| - 1]);
    }
  }

  /** A suggestion is a name anyone may take, with no `-` doubled; there is none only for a hostname that
      leaves nothing of the alphabet, or leaves a reserved word. */
  lemma SuggestedIsAName(hostname: string)
    ensures Suggested(hostname).Some? ==>
              IsLabel(Suggested(hostname).value) && Tidy(Suggested(hostname).value)
    ensures Suggested(hostname).None? <==>
              || (forall c :: c in BeforeDot(hostname) ==> Letter(c) == '-')
              || Cut(TrimDashes(Squash(BeforeDot(hostname)))) in RESERVED
  {
    var head := BeforeDot(hostname);
    SquashTidy(head);
    TrimDashesTidy(Squash(head));
    var name := Cut(TrimDashes(Squash(head)));
    assert Tidy(name);
    if name != [] { FoldName(name); }
    assert "me" != "" && "root" != "" && "anyone" != "" && "control" != "" && "lookup" != "";
  }

  // --- what of a hostname it keeps ---

  /** A hostname's first part: what stands before its first dot. */
  lemma {:induction false} BeforeDotExact(hostname: string, i: nat)
    requires i <= |hostname| && '.' !in hostname[..i] && (i < |hostname| ==> hostname[i] == '.')
    ensures BeforeDot(hostname) == hostname[..i]
  {
    if i > 0 {
      assert hostname[0] == hostname[..i][0] && hostname[1..][..i - 1] == hostname[..i][1..];
      BeforeDotExact(hostname[1..], i - 1);
    }
  }

  lemma {:induction false} SquashStays(head: string)
    requires Tidy(head)
    ensures Squash(head) == head
  {
    if head != [] {
      var n := |head| - 1;
      assert Tidy(head[..n]);
      SquashStays(head[..n]);
      assert head == head[..n] + [head[n]];
      assert Letter(head[n]) == head[n];
      assert n > 0 ==> head[..n][n - 1] == head[n - 1];
    }
  }

  /** A hostname whose first part is a tidy name already, none of the reserved ones, suggests that very name. */
  lemma SuggestsItself(hostname: string, i: nat)
    requires i <= |hostname| && '.' !in hostname[..i] && (i < |hostname| ==> hostname[i] == '.')
    requires 0 < i <= MAX_LEN && Tidy(hostname[..i]) && hostname[i - 1] != '-' && hostname[..i] !in RESERVED
    ensures Suggested(hostname) == Some(hostname[..i])
  {
    BeforeDotExact(hostname, i);
    SquashStays(hostname[..i]);
    assert hostname[..i][i - 1] == hostname[i - 1];
    TidyParses(hostname[..i]);
  }

  lemma TidyParses(head: string)
    requires 0 < |head| <= MAX_LEN && Tidy(head) && head[|head| - 1] != '-'
    ensures Parse(Cut(TrimDashes(head))) == Ok(head)
  {
    assert head[0] != '-';
    FoldName(head);
  }

  lemma {:induction false} SquashLetters(head: string)
    ensures Squash(Map(Letter, head)) == Squash(head)
  {
    if head != [] {
      var n := |head| - 1;
      assert Map(Letter, head)[..n] == Map(Letter, head[..n]);
      SquashLetters(head[..n]);
    }
  }

  predicate Kept(c: char) { Lower(c) || Digit(c) }

  /** The letters and digits of a text, in order, in lower case. */
  function Alnum(s: string): string { Filter(Kept, Fold(s)) }

  lemma {:induction false} SquashKeeps(head: string)
    ensures Filter(Kept, Squash(head)) == Alnum(head)
  {
    if head != [] {
      var n := |head| - 1;
      SquashKeeps(head[..n]);
      assert Fold(head) == Fold(head[..n]) + [FoldChar(head[n])];
      FilterAppend(Kept, Fold(head[..n]), [FoldChar(head[n])]);
      FilterAppend(Kept, Squash(head[..n]), [Letter(head[n])]);
      assert [FoldChar(head[n])][1..] == [] && [Letter(head[n])][1..] == [];
      assert Filter(Kept, Squash(head[..n])) + [] == Filter(Kept, Squash(head[..n]));
    }
  }

  lemma {:induction false} TrimDashesKeeps(name: string)
    ensures Filter(Kept, TrimDashes(name)) == Filter(Kept, name)
  {
    if name != [] && name[|name| - 1] == '-' {
      var n := |name| - 1;
      TrimDashesKeeps(name[..n]);
      assert name == name[..n] + [name[n]] && [name[n]][1..] == [];
      FilterAppend(Kept, name[..n], [name[n]]);
      assert Filter(Kept, name[..n]) + [] == Filter(Kept, name[..n]);
    }
  }

  /** A suggestion keeps the letters and digits of the hostname's first part, in order and from the first, all of them
      when the name is not cut; and what is outside the alphabet counts as a dash. */
  lemma SuggestionKeeps(hostname: string)
    requires Suggested(hostname).Some?
    ensures var name, head := Suggested(hostname).value, BeforeDot(hostname);
            && Filter(Kept, name) <= Alnum(head)
            && (|name| < MAX_LEN ==> Filter(Kept, name) == Alnum(head))
            && Squash(Map(Letter, head)) == Squash(head)
  {
    var head := BeforeDot(hostname);
    var whole := TrimDashes(Squash(head));
    SquashTidy(head);
    TrimDashesTidy(Squash(head));
    SquashLetters(head);
    SquashKeeps(head);
    TrimDashesKeeps(Squash(head));
    FoldName(Cut(whole));
    if |whole| > MAX_LEN {
      FilterAppend(Kept, whole[..MAX_LEN], whole[MAX_LEN..]);
      assert whole == whole[..MAX_LEN] + whole[MAX_LEN..];
    }
  }
}
