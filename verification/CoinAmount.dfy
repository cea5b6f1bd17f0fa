/**
  Amounts as coins: `coinFormat` of data/static/venture.js, and the part of
  `cellNumber` that reads gold, silver and copper.  Amounts are whole minor
  units.
 */
module CoinAmount {
  import opened Options
  import opened Text

  datatype Unit = Unit(suffix: string, size: nat)

  predicate Usable(units: seq<Unit>) {
    units != [] && forall unit | unit in units :: unit.size > 0
  }

  // -------------------------------------------------------------- the coins

  /** How many of each unit, largest first, taking all that fit each time. */
  function Counts(units: seq<Unit>, amount: nat): (ns: seq<nat>)
    requires forall unit | unit in units :: unit.size > 0
    ensures |ns| == |units|
  {
    if units == [] then []
    else [amount / units[0].size] + Counts(units[1..], amount % units[0].size)
  }

  /** What a number of each unit is worth. */
  function Total(units: seq<Unit>, ns: seq<nat>): nat
    requires |units| == |ns|
  {
    if units == [] then 0 else ns[0] * units[0].size + Total(units[1..], ns[1..])
  }

  /** Each coin's smaller change is worth less than one of it. */
  predicate Canonical(units: seq<Unit>, ns: seq<nat>)
    requires |units| == |ns|
  {
    units == [] || (Total(units[1..], ns[1..]) < units[0].size && Canonical(units[1..], ns[1..]))
  }

  predicate EndsInOne(units: seq<Unit>) {
    units != [] && units[|units| - 1].size == 1
  }

  lemma Quotient(amount: nat, size: nat)
    requires size > 0
    ensures (amount / size) * size + amount % size == amount && amount % size < size
  {
  }

  /** The coins are worth no more than the amount, and less than one of the last unit is lost. */
  lemma {:induction false} CountsBounds(units: seq<Unit>, amount: nat)
    requires forall unit | unit in units :: unit.size > 0
    ensures Total(units, Counts(units, amount)) <= amount
    ensures units != [] ==> amount < Total(units, Counts(units, amount)) + units[|units| - 1].size
    ensures Canonical(units, Counts(units, amount))
  {
    if units != [] {
      var size := units[0].size;
      assert units[0] in units && forall unit | unit in units[1..] :: unit in units;
      Quotient(amount, size);
      CountsBounds(units[1..], amount % size);
      assert Counts(units, amount)[1..] == Counts(units[1..], amount % size);
      if |units| > 1 { assert units[1..][|units| - 2] == units[|units| - 1]; }
    }
  }

  lemma {:induction false} AtLeastOneMore(a: nat, b: nat, size: nat)
    requires a < b
    ensures a * size + size <= b * size
  {
    if a + 1 < b {
      AtLeastOneMore(a, b - 1, size);
      OneMore(b - 1, size);
    } else {
      OneMore(a, size);
    }
  }

  lemma OneMore(a: nat, size: nat)
    ensures (a + 1) * size == a * size + size
  {
  }

  lemma SameQuotient(a: nat, b: nat, x: nat, y: nat, size: nat)
    requires x < size && y < size && a * size + x == b * size + y
    ensures a == b && x == y
  {
    if a < b { AtLeastOneMore(a, b, size); } else if b < a { AtLeastOneMore(b, a, size); }
  }

  lemma {:induction false} CanonicalIsUnique(units: seq<Unit>, ns: seq<nat>, ms: seq<nat>)
    requires |units| == |ns| == |ms| && Canonical(units, ns) && Canonical(units, ms)
    requires Total(units, ns) == Total(units, ms)
    ensures ns == ms
  {
    if units != [] {
      SameQuotient(ns[0], ms[0], Total(units[1..], ns[1..]), Total(units[1..], ms[1..]), units[0].size);
      CanonicalIsUnique(units[1..], ns[1..], ms[1..]);
      assert ns == [ns[0]] + ns[1..] && ms == [ms[0]] + ms[1..];
    }
  }

  /** With a unit of one at the end the coins are exactly the amount, and they are the only canonical
      coins that are. */
  lemma CoinsAreExact(units: seq<Unit>, amount: nat, ns: seq<nat>)
    requires Usable(units) && EndsInOne(units) && |ns| == |units|
    ensures ns == Counts(units, amount) <==> Total(units, ns) == amount && Canonical(units, ns)
  {
    CountsBounds(units, amount);
    if Total(units, ns) == amount && Canonical(units, ns) {
      CanonicalIsUnique(units, ns, Counts(units, amount));
    }
  }

  // ---------------------------------------------------------------- the text

  function Digit(d: nat): char
    requires d < 10
  {
    ('0' as int + d) as char
  }

  /** String(n) */
  function Digits(n: nat): string {
    if n < 10 then [Digit(n)] else Digits(n / 10) + [Digit(n % 10)]
  }

  /** n.toLocaleString("en-US") */
  function Grouped(n: nat): string {
    if n < 1000 then Digits(n)
    else Grouped(n / 1000) + [',', Digit(n / 100 % 10), Digit(n / 10 % 10), Digit(n % 10)]
  }

  /** The part for unit i, when there is any of it; only the first unit's count is grouped. */
  function Part(units: seq<Unit>, i: nat, n: nat): seq<string>
    requires i < |units|
  {
    if n == 0 then [] else [(if i == 0 then Grouped(n) else Digits(n)) + units[i].suffix]
  }

  /** The parts from unit i on. */
  function PartsFrom(units: seq<Unit>, i: nat, rest: nat): seq<string>
    requires Usable(units) && i <= |units|
    decreases |units| - i
  {
    if i == |units| then []
    else
      assert units[i] in units;
      Part(units, i, rest / units[i].size) + PartsFrom(units, i + 1, rest % units[i].size)
  }

  function Format(units: seq<Unit>, minor: int): string
    requires Usable(units)
  {
    var parts := PartsFrom(units, 0, if minor < 0 then -minor else minor);
    (if minor < 0 then "-" else "")
    + Join(if parts == [] then ["0" + units[|units| - 1].suffix] else parts, " ")
  }

  method CoinFormat(units: seq<Unit>, minor: int) returns (text: string)
    requires Usable(units)
    ensures text == Format(units, minor)
  {
    var negative := minor < 0;
    var rest: nat := if minor < 0 then -minor else minor;
    ghost var all := PartsFrom(units, 0, rest);
    var parts: seq<string> := [];
    for i := 0 to |units|
      invariant parts + PartsFrom(units, i, rest) == all
    {
      var unit := units[i];
      assert unit in units;
      var n, left := TakeOff(rest, unit.size);
      PartsFromNext(units, i, rest, n, left);
      Regroup(parts, Part(units, i, n), PartsFrom(units, i + 1, left));
      rest := left;
      if n > 0 {
        parts := parts + [(if i == 0 then Grouped(n) else Digits(n)) + unit.suffix];
      } else {
        assert parts + [] == parts;
      }
    }
    assert parts + [] == parts;
    if parts == [] {
      parts := ["0" + units[|units| - 1].suffix];
    }
    text := (if negative then "-" else "") + Join(parts, " ");
  }

  lemma PartsFromNext(units: seq<Unit>, i: nat, rest: nat, n: nat, r: nat)
    requires Usable(units) && i < |units| && units[i].size > 0
    requires n == rest / units[i].size && r == rest % units[i].size
    ensures PartsFrom(units, i, rest) == Part(units, i, n) + PartsFrom(units, i + 1, r)
  {
  }

  /** var n = Math.floor(rest / size); rest -= n * size; */
  method TakeOff(rest: nat, size: nat) returns (n: nat, left: nat)
    requires size > 0
    ensures n == rest / size && left == rest % size
  {
    n := rest / size;
    Quotient(rest, size);
    left := rest - n * size;
  }

  lemma Regroup(a: seq<string>, b: seq<string>, c: seq<string>)
    ensures a + (b + c) == (a + b) + c
  {
  }

  /** The parts printed for a sequence of counts. */
  function Printed(units: seq<Unit>, ns: seq<nat>, i: nat): seq<string>
    requires |ns| == |units| && i <= |units|
    decreases |units| - i
  {
    if i == |units| then [] else Part(units, i, ns[i]) + Printed(units, ns, i + 1)
  }

  /** What is printed is the canonical coins of the amount. */
  lemma {:induction false} PartsPrintCounts(units: seq<Unit>, i: nat, rest: nat, ns: seq<nat>)
    requires Usable(units) && i <= |units| && |ns| == |units|
    requires (forall unit | unit in units[i..] :: unit.size > 0) && ns[i..] == Counts(units[i..], rest)
    ensures PartsFrom(units, i, rest) == Printed(units, ns, i)
    decreases |units| - i
  {
    if i < |units| {
      assert units[i..][0] == units[i] && units[i..][1..] == units[i + 1..];
      assert ns[i..][0] == ns[i] && ns[i..][1..] == ns[i + 1..];
      assert units[i] in units;
      PartsPrintCounts(units, i + 1, rest % units[i].size, ns);
    }
  }

  // -------------------------------------------------------------- reading back

  predicate IsDigit(c: char) { '0' <= c <= '9' }

  /** The class [\d,] or the class \d. */
  predicate InRun(c: char, commas: bool) { IsDigit(c) || (commas && c == ',') }

  /** How many characters of the class the text starts with. */
  function RunLength(text: string, commas: bool): (n: nat)
    ensures n <= |text|
  {
    if text != "" && InRun(text[0], commas) then 1 + RunLength(text[1..], commas) else 0
  }

  datatype Taken = Taken(run: Option<string>, rest: string)

  /** (?:([\d,]+)g)? and its like: the run, when it is there and its letter follows. */
  function TakeUnit(text: string, letter: char, commas: bool): Taken {
    var n := RunLength(text, commas);
    if 0 < n < |text| && text[n] == letter then Taken(Some(text[..n]), text[n + 1..]) else Taken(None, text)
  }

  /** \s* */
  function SkipSpaces(text: string): string {
    if text != "" && IsSpace(text[0]) then SkipSpaces(text[1..]) else text
  }

  /** text.replace(/,/g, "") */
  function WithoutCommas(text: string): string {
    if text == "" then ""
    else WithoutCommas(text[..|text| - 1]) + if text[|text| - 1] == ',' then "" else [text[|text| - 1]]
  }

  predicate AllDigits(text: string) {
    forall i | 0 <= i < |text| :: IsDigit(text[i])
  }

  /** parseInt of a string of digits. */
  function ParseInt(text: string): nat
    requires AllDigits(text)
  {
    if text == "" then 0 else 10 * ParseInt(text[..|text| - 1]) + (text[|text| - 1] as int - '0' as int)
  }

  datatype Cell = NotCoins | NotANumber | Amount(minor: int)

  /** The value of one group of the match: "0" when it is absent. */
  function GroupValue(run: Option<string>): Option<nat> {
    if run.None? then Some(0)
    else
      var text := WithoutCommas(run.value);
      if text == "" || !AllDigits(text) then None else Some(ParseInt(text))
  }

  datatype Groups = Groups(
    negative: bool, gold: Option<string>, silver: Option<string>, copper: Option<string>, rest: string)

  /** The pattern's groups, each unit and the spaces between taken in turn, and what is left over. */
  function TakeGroups(text: string): Groups {
    if text != "" && text[0] == '-' then TakeAmount(text[1..], true) else TakeAmount(text, false)
  }

  function TakeAmount(text: string, negative: bool): Groups {
    var gold := TakeUnit(text, 'g', true);
    var silver := TakeUnit(SkipSpaces(gold.rest), 's', false);
    var copper := TakeUnit(SkipSpaces(silver.rest), 'c', false);
    Groups(negative, gold.run, silver.run, copper.run, copper.rest)
  }

  /** cellNumber's match for gold, silver and copper; NotCoins sends the cell on to the other readings. */
  function CellNumber(text: string): Cell {
    var groups := TakeGroups(text);
    if groups.rest != "" || (groups.gold.None? && groups.silver.None? && groups.copper.None?) then NotCoins
    else
      match (GroupValue(groups.gold), GroupValue(groups.silver), GroupValue(groups.copper))
      case (Some(g), Some(s), Some(c)) =>
        var minor: int := g * 10000 + s * 100 + c;
        Amount(if groups.negative then -minor else minor)
      case _ => NotANumber
  }

  // --------------------------------------------------------------- round trip

  lemma DigitRead(text: string, d: nat)
    requires AllDigits(text) && d < 10
    ensures AllDigits(text + [Digit(d)]) && ParseInt(text + [Digit(d)]) == 10 * ParseInt(text) + d
    ensures WithoutCommas(text + [Digit(d)]) == WithoutCommas(text) + [Digit(d)]
  {
    assert (text + [Digit(d)])[..|text|] == text;
  }

  lemma {:induction false} DigitsRead(n: nat)
    ensures Digits(n) != "" && AllDigits(Digits(n)) && ParseInt(Digits(n)) == n
    ensures WithoutCommas(Digits(n)) == Digits(n)
  {
    if n < 10 {
      DigitRead("", n);
      assert "" + [Digit(n)] == [Digit(n)];
    } else {
      DigitsRead(n / 10);
      DigitRead(Digits(n / 10), n % 10);
    }
  }

  lemma WithoutCommasAppend(text: string, c: char)
    ensures WithoutCommas(text + [c]) == WithoutCommas(text) + if c == ',' then "" else [c]
  {
    assert (text + [c])[..|text|] == text;
  }

  lemma DigitsOfThousands(n: nat)
    requires n >= 1000
    ensures Digits(n) == Digits(n / 1000) + [Digit(n / 100 % 10)] + [Digit(n / 10 % 10)] + [Digit(n % 10)]
  {
    assert n / 10 / 10 == n / 100 && n / 100 / 10 == n / 1000;
    assert Digits(n / 100) == Digits(n / 1000) + [Digit(n / 100 % 10)];
    assert Digits(n / 10) == Digits(n / 100) + [Digit(n / 10 % 10)];
  }

  lemma GroupOfThree(front: string, a: char, b: char, c: char)
    requires IsDigit(a) && IsDigit(b) && IsDigit(c)
    ensures WithoutCommas(front + [',', a, b, c]) == WithoutCommas(front) + [a] + [b] + [c]
  {
    WithoutCommasAppend(front, ',');
    WithoutCommasAppend(front + [','], a);
    WithoutCommasAppend(front + [','] + [a], b);
    WithoutCommasAppend(front + [','] + [a] + [b], c);
    assert front + [',', a, b, c] == front + [','] + [a] + [b] + [c];
  }

  /** Grouping only adds commas. */
  lemma {:induction false} GroupedIsDigits(n: nat)
    ensures WithoutCommas(Grouped(n)) == Digits(n)
  {
    if n < 1000 {
      DigitsRead(n);
    } else {
      GroupedIsDigits(n / 1000);
      GroupOfThree(Grouped(n / 1000), Digit(n / 100 % 10), Digit(n / 10 % 10), Digit(n % 10));
      DigitsOfThousands(n);
    }
  }

  lemma AtMostThree(n: nat)
    requires n < 1000
    ensures |Digits(n)| <= 3 && AllDigits(Digits(n)) && Digits(n) != ""
  {
    DigitsRead(n);
    if n >= 10 {
      assert Digits(n) == Digits(n / 10) + [Digit(n % 10)];
      if n / 10 >= 10 {
        assert Digits(n / 10) == Digits(n / 10 / 10) + [Digit(n / 10 % 10)];
        assert Digits(n / 10 / 10) == [Digit(n / 10 / 10)];
      }
    }
  }

  lemma FourMore(front: string, three: string, i: nat)
    requires |three| == 3 && AllDigits(three) && i < |front| + 4
    ensures var text := front + [','] + three;
            text[i] == ',' <==> if i < |front| then front[i] == ',' else (|text| - i) % 4 == 0
    ensures i < |front| ==> (|front| + 4 - i) % 4 == (|front| - i) % 4
  {
  }

  /** A grouped count has a comma before every third digit from its end, and nowhere else. */
  lemma {:induction false} CommasByThree(n: nat, i: nat)
    requires i < |Grouped(n)|
    ensures Grouped(n)[i] == ',' <==> (|Grouped(n)| - i) % 4 == 0
    ensures Grouped(n)[0] != ','
  {
    GroupedIsCount(n);
    if n < 1000 {
      AtMostThree(n);
    } else {
      var front, three := Grouped(n / 1000), [Digit(n / 100 % 10), Digit(n / 10 % 10), Digit(n % 10)];
      assert Grouped(n) == front + [','] + three;
      FourMore(front, three, i);
      if i < |front| { CommasByThree(n / 1000, i); }
    }
  }

  /** No count but zero begins with a zero. */
  lemma {:induction false} NoLeadingZero(n: nat)
    ensures Digits(n) != "" && (Digits(n)[0] == '0' ==> n == 0)
  {
    if n >= 10 { NoLeadingZero(n / 10); }
  }

  lemma DigitsIsCount(n: nat)
    ensures IsCount(Digits(n), false)
  {
    DigitsRead(n);
  }

  lemma {:induction false} GroupedIsCount(n: nat)
    ensures IsCount(Grouped(n), true)
  {
    if n < 1000 { DigitsIsCount(n); } else { GroupedIsCount(n / 1000); }
  }

  /** A count reads back, grouped or not. */
  lemma CountRead(n: nat)
    ensures GroupValue(Some(Digits(n))) == Some(n) && GroupValue(Some(Grouped(n))) == Some(n)
  {
    DigitsRead(n);
    GroupedIsDigits(n);
  }

  /** A run ends where its class does. */
  lemma {:induction false} RunIs(run: string, rest: string, commas: bool)
    requires forall i | 0 <= i < |run| :: InRun(run[i], commas)
    requires rest == "" || !InRun(rest[0], commas)
    ensures RunLength(run + rest, commas) == |run|
  {
    if run == "" {
      assert run + rest == rest;
    } else {
      assert (run + rest)[1..] == run[1..] + rest;
      RunIs(run[1..], rest, commas);
    }
  }

  predicate IsRun(run: string, commas: bool) {
    run != "" && forall i | 0 <= i < |run| :: InRun(run[i], commas)
  }

  predicate IsCount(run: string, commas: bool) {
    IsRun(run, commas) && IsDigit(run[0])
  }

  lemma TakesPiece(run: string, letter: char, wanted: char, rest: string, commas: bool)
    requires IsRun(run, commas) && !InRun(letter, commas)
    ensures TakeUnit(run + [letter] + rest, wanted, commas) ==
            if letter == wanted then Taken(Some(run), rest) else Taken(None, run + [letter] + rest)
  {
    var text := run + [letter] + rest;
    assert text == run + ([letter] + rest);
    RunIs(run, [letter] + rest, commas);
    assert text[..|run|] == run && text[|run| + 1..] == rest;
  }

  /** The text of one unit of an amount: a count and its letter, or nothing at all. */
  function Piece(run: string, letter: char, there: bool): string {
    if there then run + [letter] else ""
  }

  lemma NoSpaceToSkip(tail: string)
    requires tail == "" || IsDigit(tail[0])
    ensures SkipSpaces(tail) == tail
  {
  }

  lemma SkipOne(space: string, tail: string)
    requires space == (if tail != "" then " " else "") && (tail == "" || IsDigit(tail[0]))
    ensures SkipSpaces(space + tail) == tail
  {
    NoSpaceToSkip(tail);
    if tail != "" { assert (space + tail)[1..] == tail; }
  }

  /** One unit taken off the front, and the space behind it. */
  lemma TakeThenSkip(run: string, letter: char, there: bool, space: string, tail: string, commas: bool)
    requires IsCount(run, commas) && !InRun(letter, commas)
    requires space == (if there && tail != "" then " " else "") && (tail == "" || IsDigit(tail[0]))
    requires TakeUnit(tail, letter, commas).run.None?
    ensures var taken := TakeUnit(Piece(run, letter, there) + space + tail, letter, commas);
            taken.run == (if there then Some(run) else None) && SkipSpaces(taken.rest) == tail
  {
    if there {
      assert Piece(run, letter, there) + space + tail == run + [letter] + (space + tail);
      TakesPiece(run, letter, letter, space + tail, commas);
      SkipOne(space, tail);
    } else {
      assert Piece(run, letter, there) + space + tail == tail;
      NoSpaceToSkip(tail);
    }
  }

  /** Silver and copper as text, from the text of their counts. */
  function SilverText(s: string, silver: bool, c: string, copper: bool): string {
    Piece(s, 's', silver) + (if silver && copper then " " else "") + Piece(c, 'c', copper)
  }

  /** An amount in gold, silver and copper, from the text of its counts. */
  function GoldText(g: string, gold: bool, s: string, silver: bool, c: string, copper: bool): string {
    Piece(g, 'g', gold) + (if gold && (silver || copper) then " " else "") + SilverText(s, silver, c, copper)
  }

  /** Silver and copper are not taken for gold. */
  lemma NoGoldInSilver(s: string, silver: bool, c: string, copper: bool)
    requires IsCount(s, false) && IsCount(c, false)
    ensures var text := SilverText(s, silver, c, copper);
            && TakeUnit(text, 'g', true).run.None?
            && (if silver || copper then text != "" && IsDigit(text[0]) else text == "")
  {
    var tail := (if silver && copper then " " else "") + Piece(c, 'c', copper);
    if silver {
      assert SilverText(s, silver, c, copper) == s + ['s'] + tail;
      TakesPiece(s, 's', 'g', tail, true);
    } else if copper {
      assert SilverText(s, silver, c, copper) == c + ['c'] + "";
      TakesPiece(c, 'c', 'g', "", true);
    }
  }

  lemma SilverGroups(s: string, silver: bool, c: string, copper: bool)
    requires IsCount(s, false) && IsCount(c, false)
    ensures var taken := TakeUnit(SilverText(s, silver, c, copper), 's', false);
            && taken.run == (if silver then Some(s) else None)
            && SkipSpaces(taken.rest) == Piece(c, 'c', copper)
            && TakeUnit(Piece(c, 'c', copper), 'c', false) == Taken(if copper then Some(c) else None, "")
  {
    var tail := Piece(c, 'c', copper);
    if copper {
      assert tail == c + ['c'] + "";
      TakesPiece(c, 'c', 's', "", false);
      TakesPiece(c, 'c', 'c', "", false);
    }
    TakeThenSkip(s, 's', silver, if silver && copper then " " else "", tail, false);
  }

  function Found(negative: bool, g: string, gold: bool, s: string, silver: bool, c: string, copper: bool): Groups {
    Groups(negative, if gold then Some(g) else None, if silver then Some(s) else None,
           if copper then Some(c) else None, "")
  }

  lemma AmountGroups(g: string, gold: bool, s: string, silver: bool, c: string, copper: bool, negative: bool)
    requires IsCount(g, true) && IsCount(s, false) && IsCount(c, false)
    ensures TakeAmount(GoldText(g, gold, s, silver, c, copper), negative)
         == Found(negative, g, gold, s, silver, c, copper)
  {
    NoGoldInSilver(s, silver, c, copper);
    TakeThenSkip(g, 'g', gold, if gold && (silver || copper) then " " else "",
                 SilverText(s, silver, c, copper), true);
    SilverGroups(s, silver, c, copper);
  }

  /** The pattern finds each count again, whichever of the three are there. */
  lemma GroupsOf(g: string, gold: bool, s: string, silver: bool, c: string, copper: bool)
    requires IsCount(g, true) && IsCount(s, false) && IsCount(c, false) && (gold || silver || copper)
    ensures var text := GoldText(g, gold, s, silver, c, copper);
            && TakeGroups(text) == Found(false, g, gold, s, silver, c, copper)
            && TakeGroups("-" + text) == Found(true, g, gold, s, silver, c, copper)
  {
    var text := GoldText(g, gold, s, silver, c, copper);
    var tail := SilverText(s, silver, c, copper);
    AmountGroups(g, gold, s, silver, c, copper, false);
    AmountGroups(g, gold, s, silver, c, copper, true);
    assert ("-" + text)[1..] == text;
    assert text != "" && text[0] != '-' by {
      if gold { assert text[0] == g[0]; } else { assert text == tail; }
    }
  }

  const GoldSilverCopper := [Unit("g", 10000), Unit("s", 100), Unit("c", 1)]

  lemma JoinThree(a: string, gold: bool, b: string, silver: bool, c: string, copper: bool)
    ensures Join((if gold then [a] else []) + ((if silver then [b] else []) + (if copper then [c] else [])), " ") ==
            (if gold then a else "") + (if gold && (silver || copper) then " " else "")
            + ((if silver then b else "") + (if silver && copper then " " else "") + (if copper then c else ""))
  {
    var x, y, z := if gold then [a] else [], if silver then [b] else [], if copper then [c] else [];
    var rest := (if silver then b else "") + (if silver && copper then " " else "") + (if copper then c else "");
    if silver { assert (y + z)[1..] == z; } else { assert y + z == z; }
    assert Join(y + z, " ") == rest;
    if gold {
      assert (x + (y + z))[1..] == y + z;
      if !silver && !copper { assert x + (y + z) == [a] && a + "" + rest == a; }
    } else {
      assert x + (y + z) == y + z && "" + "" + rest == rest;
    }
  }

  /** An amount's text without its sign. */
  function TextOf(amount: nat): string {
    var g, s, c := amount / 10000, amount % 10000 / 100, amount % 10000 % 100;
    GoldText(Grouped(g), g > 0, Digits(s), s > 0, Digits(c), c > 0 || amount == 0)
  }

  lemma FormatGold(minor: int)
    ensures Format(GoldSilverCopper, minor) == if minor < 0 then "-" + TextOf(-minor) else TextOf(minor)
  {
    var amount: nat := if minor < 0 then -minor else minor;
    var g, s, c := amount / 10000, amount % 10000 / 100, amount % 10000 % 100;
    var units := GoldSilverCopper;
    assert PartsFrom(units, 3, c % 1) == [];
    assert PartsFrom(units, 2, c) == (if c > 0 then [Digits(c) + "c"] else []) + [];
    assert PartsFrom(units, 1, amount % 10000) ==
           (if s > 0 then [Digits(s) + "s"] else []) + (if c > 0 then [Digits(c) + "c"] else []);
    assert PartsFrom(units, 0, amount) ==
           (if g > 0 then [Grouped(g) + "g"] else []) + PartsFrom(units, 1, amount % 10000);
    JoinThree(Grouped(g) + "g", g > 0, Digits(s) + "s", s > 0, Digits(c) + "c", c > 0);
    assert Digits(0) == "0" && (amount == 0 <==> g == 0 && s == 0 && c == 0);
  }

  /** What a cell whose groups are known comes to. */
  lemma CellOfGroups(text: string, negative: bool, gt: string, g: nat, st: string, s: nat,
                     ct: string, c: nat, copper: bool)
    requires GroupValue(Some(gt)) == Some(g) && GroupValue(Some(st)) == Some(s) && GroupValue(Some(ct)) == Some(c)
    requires TakeGroups(text) == Found(negative, gt, g > 0, st, s > 0, ct, copper)
    requires (g > 0 || s > 0 || copper) && (!copper ==> c == 0)
    ensures CellNumber(text) == Amount(if negative then -(g * 10000 + s * 100 + c) as int else g * 10000 + s * 100 + c)
  {
  }

  lemma GoldCell(g: nat, s: nat, c: nat, copper: bool)
    requires (g > 0 || s > 0 || copper) && (!copper ==> c == 0)
    ensures var text := GoldText(Grouped(g), g > 0, Digits(s), s > 0, Digits(c), copper);
            && CellNumber(text) == Amount(g * 10000 + s * 100 + c)
            && CellNumber("-" + text) == Amount(-(g * 10000 + s * 100 + c))
  {
    var gt, st, ct := Grouped(g), Digits(s), Digits(c);
    var text := GoldText(gt, g > 0, st, s > 0, ct, copper);
    assert IsCount(gt, true) && IsCount(st, false) && IsCount(ct, false) by {
      GroupedIsCount(g); DigitsIsCount(s); DigitsIsCount(c);
    }
    GroupsOf(gt, g > 0, st, s > 0, ct, copper);
    CountRead(g); CountRead(s); CountRead(c);
    CellOfGroups(text, false, gt, g, st, s, ct, c, copper);
    CellOfGroups("-" + text, true, gt, g, st, s, ct, c, copper);
  }

  lemma GoldSum(amount: nat)
    ensures amount == (amount / 10000) * 10000 + (amount % 10000 / 100) * 100 + amount % 10000 % 100
  {
  }

  lemma CellOfText(amount: nat)
    ensures CellNumber(TextOf(amount)) == Amount(amount)
    ensures CellNumber("-" + TextOf(amount)) == Amount(-(amount as int))
  {
    var g, s, c := amount / 10000, amount % 10000 / 100, amount % 10000 % 100;
    GoldCell(g, s, c, c > 0 || amount == 0);
    GoldSum(amount);
  }

  /** Every whole amount of copper, written as gold, silver and copper, is read back. */
  lemma CellReadsGold(minor: int)
    ensures CellNumber(Format(GoldSilverCopper, minor)) == Amount(minor)
  {
    FormatGold(minor);
    CellOfText(if minor < 0 then -minor else minor);
  }

  // ------------------------------------------------------------ what is read as coins

  predicate Blanks(text: string) {
    forall i | 0 <= i < |text| :: IsSpace(text[i])
  }

  function UnitText(run: Option<string>, letter: char): string {
    if run.Some? then run.value + [letter] else ""
  }

  predicate RunsFit(gold: Option<string>, silver: Option<string>, copper: Option<string>) {
    && (gold.Some? ==> IsRun(gold.value, true)) && (silver.Some? ==> IsRun(silver.value, false))
    && (copper.Some? ==> IsRun(copper.value, false))
  }

  /** The text is a sign or none, then gold, silver and copper, each there or not, with space between. */
  ghost predicate Spelled(text: string, negative: bool, gold: Option<string>, silver: Option<string>,
                          copper: Option<string>)
  {
    && RunsFit(gold, silver, copper)
    && exists a, b :: SpelledWith(text, negative, gold, a, silver, b, copper)
  }

  predicate SpelledWith(text: string, negative: bool, gold: Option<string>, a: string, silver: Option<string>,
                        b: string, copper: Option<string>)
  {
    && Blanks(a) && Blanks(b)
    && text == (if negative then "-" else "")
               + (UnitText(gold, 'g') + (a + (UnitText(silver, 's') + (b + UnitText(copper, 'c')))))
  }

  lemma {:induction false} SkipsBlanks(blanks: string, rest: string)
    requires Blanks(blanks)
    ensures SkipSpaces(blanks + rest) == SkipSpaces(rest)
  {
    if blanks == "" {
      assert blanks + rest == rest;
    } else {
      assert (blanks + rest)[1..] == blanks[1..] + rest;
      SkipsBlanks(blanks[1..], rest);
    }
  }

  lemma {:induction false} SkippedIsBlank(text: string) returns (blanks: string)
    ensures Blanks(blanks) && text == blanks + SkipSpaces(text)
    ensures SkipSpaces(text) == "" || !IsSpace(SkipSpaces(text)[0])
  {
    if text != "" && IsSpace(text[0]) {
      var rest := SkippedIsBlank(text[1..]);
      blanks := [text[0]] + rest;
      assert blanks + SkipSpaces(text) == [text[0]] + (rest + SkipSpaces(text[1..]));
    } else {
      blanks := "";
    }
  }

  lemma {:induction false} RunTaken(text: string, commas: bool)
    ensures forall i | 0 <= i < RunLength(text, commas) :: InRun(text[i], commas)
  {
    if text != "" && InRun(text[0], commas) {
      RunTaken(text[1..], commas);
      assert forall i | 0 < i < RunLength(text, commas) :: text[i] == text[1..][i - 1];
    }
  }

  lemma TakenSpells(text: string, letter: char, commas: bool)
    ensures var taken := TakeUnit(text, letter, commas);
            && text == UnitText(taken.run, letter) + taken.rest
            && (taken.run.Some? ==> IsRun(taken.run.value, commas))
  {
    RunTaken(text, commas);
  }

  /** A unit that is spelled is taken, and what follows left. */
  lemma SpelledTaken(run: Option<string>, letter: char, rest: string, commas: bool)
    requires run.Some? ==> IsRun(run.value, commas)
    requires !InRun(letter, commas) && TakeUnit(rest, letter, commas).run.None?
    ensures TakeUnit(UnitText(run, letter) + rest, letter, commas) == Taken(run, rest)
  {
    if run.Some? {
      assert UnitText(run, letter) + rest == run.value + [letter] + rest;
      TakesPiece(run.value, letter, letter, rest, commas);
    } else {
      assert UnitText(run, letter) + rest == rest;
    }
  }

  lemma SpaceFirst(blanks: string, rest: string, letter: char, commas: bool)
    requires Blanks(blanks) && blanks != ""
    ensures TakeUnit(blanks + rest, letter, commas) == Taken(None, blanks + rest)
  {
  }

  /** Another unit, or space, or nothing, is not taken for this one. */
  lemma NotThisUnit(run: Option<string>, other: char, rest: string, letter: char, commas: bool)
    requires run.Some? && IsRun(run.value, false) && other != letter && !InRun(other, commas)
    ensures TakeUnit(UnitText(run, other) + rest, letter, commas).run.None?
  {
    assert UnitText(run, other) + rest == run.value + [other] + rest;
    assert IsRun(run.value, commas);
    TakesPiece(run.value, other, letter, rest, commas);
  }

  lemma CopperTail(b: string, copper: Option<string>, letter: char, commas: bool)
    requires Blanks(b) && (copper.Some? ==> IsRun(copper.value, false)) && (letter == 'g' || letter == 's')
    ensures TakeUnit(b + UnitText(copper, 'c'), letter, commas).run.None?
    ensures SkipSpaces(b + UnitText(copper, 'c')) == UnitText(copper, 'c')
    ensures TakeUnit(UnitText(copper, 'c'), 'c', false) == Taken(copper, "")
  {
    SkipsBlanks(b, UnitText(copper, 'c'));
    assert UnitText(copper, 'c') + "" == UnitText(copper, 'c');
    SpelledTaken(copper, 'c', "", false);
    if b != "" {
      SpaceFirst(b, UnitText(copper, 'c'), letter, commas);
    } else {
      assert b + UnitText(copper, 'c') == UnitText(copper, 'c');
      if copper.Some? { NotThisUnit(copper, 'c', "", letter, commas); }
    }
  }

  lemma SilverTail(a: string, silver: Option<string>, b: string, copper: Option<string>)
    requires Blanks(a) && Blanks(b) && RunsFit(None, silver, copper)
    ensures var tail := UnitText(silver, 's') + (b + UnitText(copper, 'c'));
            && TakeUnit(a + tail, 'g', true).run.None?
            && TakeUnit(SkipSpaces(a + tail), 's', false).run == silver
            && SkipSpaces(TakeUnit(SkipSpaces(a + tail), 's', false).rest) == UnitText(copper, 'c')
  {
    var end := b + UnitText(copper, 'c');
    var tail := UnitText(silver, 's') + end;
    CopperTail(b, copper, 'g', true);
    CopperTail(b, copper, 's', false);
    SkipsBlanks(a, tail);
    if silver.Some? {
      NotThisUnit(silver, 's', end, 'g', true);
      SpelledTaken(silver, 's', end, false);
      assert SkipSpaces(tail) == tail;
    } else {
      assert tail == end;
      CopperTail("", copper, 's', false);
      assert "" + UnitText(copper, 'c') == UnitText(copper, 'c');
    }
    if a != "" { SpaceFirst(a, tail, 'g', true); } else { assert a + tail == tail; }
  }

  /** What the pattern finds in a text is how the text is spelled, and there is but one way. */
  lemma GroupsMean(text: string, negative: bool, gold: Option<string>, silver: Option<string>, copper: Option<string>)
    ensures TakeGroups(text) == Groups(negative, gold, silver, copper, "") <==>
            Spelled(text, negative, gold, silver, copper)
  {
    if TakeGroups(text) == Groups(negative, gold, silver, copper, "") {
      TakenIsSpelled(text);
    }
    if Spelled(text, negative, gold, silver, copper) {
      var a, b :| SpelledWith(text, negative, gold, a, silver, b, copper);
      SpelledIsTaken(text, negative, gold, a, silver, b, copper);
    }
  }

  lemma AmountIsSpelled(body: string, negative: bool) returns (a: string, b: string)
    requires TakeAmount(body, negative).rest == ""
    ensures var found := TakeAmount(body, negative);
            && Blanks(a) && Blanks(b) && RunsFit(found.gold, found.silver, found.copper)
            && body == UnitText(found.gold, 'g')
                       + (a + (UnitText(found.silver, 's') + (b + UnitText(found.copper, 'c'))))
  {
    var gold := TakeUnit(body, 'g', true);
    TakenSpells(body, 'g', true);
    a := SkippedIsBlank(gold.rest);
    var middle := SkipSpaces(gold.rest);
    var silver := TakeUnit(middle, 's', false);
    TakenSpells(middle, 's', false);
    b := SkippedIsBlank(silver.rest);
    var end := SkipSpaces(silver.rest);
    TakenSpells(end, 'c', false);
    var copper := TakeUnit(end, 'c', false);
    assert UnitText(copper.run, 'c') + "" == UnitText(copper.run, 'c');
  }

  lemma TakenIsSpelled(text: string)
    requires TakeGroups(text).rest == ""
    ensures var found := TakeGroups(text); Spelled(text, found.negative, found.gold, found.silver, found.copper)
  {
    var negative := text != "" && text[0] == '-';
    var body := if negative then text[1..] else text;
    var a, b := AmountIsSpelled(body, negative);
    assert text == (if negative then "-" else "") + body;
    SignAndBody(text, TakeAmount(body, negative), a, b, body);
  }

  lemma SignAndBody(text: string, found: Groups, a: string, b: string, body: string)
    requires RunsFit(found.gold, found.silver, found.copper) && Blanks(a) && Blanks(b)
    requires body == UnitText(found.gold, 'g') + (a + (UnitText(found.silver, 's') + (b + UnitText(found.copper, 'c'))))
    requires text == (if found.negative then "-" else "") + body
    ensures Spelled(text, found.negative, found.gold, found.silver, found.copper)
  {
    assert SpelledWith(text, found.negative, found.gold, a, found.silver, b, found.copper);
  }

  lemma SpelledIsTaken(text: string, negative: bool, gold: Option<string>, a: string, silver: Option<string>,
                       b: string, copper: Option<string>)
    requires RunsFit(gold, silver, copper) && SpelledWith(text, negative, gold, a, silver, b, copper)
    ensures TakeGroups(text) == Groups(negative, gold, silver, copper, "")
  {
    var tail := a + (UnitText(silver, 's') + (b + UnitText(copper, 'c')));
    var body := UnitText(gold, 'g') + tail;
    SilverTail(a, silver, b, copper);
    SpelledTaken(gold, 'g', tail, true);
    CopperTail(b, copper, 's', false);
    assert TakeAmount(body, negative) == Groups(negative, gold, silver, copper, "");
    NoSign(gold, a, silver, b, copper);
    if negative { assert ("-" + body)[1..] == body; } else { assert "" + body == body; }
  }

  lemma NoSign(gold: Option<string>, a: string, silver: Option<string>, b: string, copper: Option<string>)
    requires RunsFit(gold, silver, copper) && Blanks(a) && Blanks(b)
    ensures var body := UnitText(gold, 'g') + (a + (UnitText(silver, 's') + (b + UnitText(copper, 'c'))));
            body == "" || body[0] != '-'
  {
    assert !IsSpace('-') && !InRun('-', true);
  }

  /** A cell is coins exactly when it is spelled so with some unit there; then it is worth the units' sum with
      its sign, commas left out, and not a number when its gold is nothing but commas. */
  lemma CellMeans(text: string)
    ensures CellNumber(text) == NotCoins <==>
              !exists negative, gold, silver, copper :: Spelled(text, negative, gold, silver, copper)
                && (gold.Some? || silver.Some? || copper.Some?)
    ensures forall negative, gold, silver, copper | Spelled(text, negative, gold, silver, copper)
              && (gold.Some? || silver.Some? || copper.Some?) ::
              CellNumber(text) ==
                match (GroupValue(gold), GroupValue(silver), GroupValue(copper))
                case (Some(g), Some(s), Some(c)) =>
                  Amount(if negative then -((10000 * g + 100 * s + c) as int) else 10000 * g + 100 * s + c)
                case _ => NotANumber
  {
    var found := TakeGroups(text);
    if found.rest == "" { TakenIsSpelled(text); }
    forall negative, gold, silver, copper | Spelled(text, negative, gold, silver, copper)
      ensures found == Groups(negative, gold, silver, copper, "")
    {
      GroupsMean(text, negative, gold, silver, copper);
    }
  }

  /** A run of digits is worth ten times what comes before its last digit, and the digit. */
  lemma RunIsWorth(run: string, d: nat)
    requires AllDigits(run) && d < 10
    ensures GroupValue(Some(run + [Digit(d)])) == Some(10 * ParseInt(run) + d)
  {
    DigitRead(run, d);
    NothingButDigits(run);
  }

  /** Commas do not count, wherever they stand. */
  lemma CommaCountsNothing(run: string)
    ensures WithoutCommas(run + [',']) == WithoutCommas(run)
    ensures GroupValue(Some(run + [','])) == GroupValue(Some(run))
  {
    WithoutCommasAppend(run, ',');
    assert WithoutCommas(run) + "" == WithoutCommas(run);
  }

  /** A unit that is not there is worth nothing, and an empty run is no number. */
  lemma NothingIsWorth()
    ensures ParseInt("") == 0 && GroupValue(None) == Some(0) && GroupValue(Some("")) == None
  {
  }

  lemma {:induction false} NothingButDigits(run: string)
    requires AllDigits(run)
    ensures WithoutCommas(run) == run
  {
    if run != "" {
      var n := |run| - 1;
      NothingButDigits(run[..n]);
      assert run == run[..n] + [run[n]];
    }
  }
}
