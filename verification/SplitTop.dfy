/**
  `splitTop` of data/static/venture-hx.js: splitting on a separator that is
  outside brackets and quotes.

  `Lex` reads a text without any thought of splitting; `Cuts` says, from that
  alone, where the top-level separators are; the method is proved to cut there
  and nowhere else.
 */
module SplitTop {
  import opened Options
  import opened Text

  predicate IsQuote(c: char) { c == '\'' || c == '"' }

  predicate Opens(c: char) { c == '[' || c == '{' || c == '(' }

  predicate Closes(c: char) { c == ']' || c == '}' || c == ')' }

  /** Where reading stands: bracket depth, the quote it is inside, and whether a backslash came last. */
  datatype Lexed = Lexed(depth: int, quote: Option<char>, backslash: bool)

  function Next(l: Lexed, c: char): Lexed {
    var quote := if l.quote.Some? then (if c == l.quote.value && !l.backslash then None else l.quote)
                 else if IsQuote(c) then Some(c) else None;
    var depth :=
      if l.quote.Some? then l.depth
      else if Opens(c) then l.depth + 1 else if Closes(c) then l.depth - 1 else l.depth;
    Lexed(depth, quote, c == '\\')
  }

  function Lex(text: string): Lexed {
    if text == "" then Lexed(0, None, false) else Next(Lex(text[..|text| - 1]), text[|text| - 1])
  }

  /** Outside quotes and brackets. */
  predicate AtTop(text: string) {
    Lex(text).depth == 0 && Lex(text).quote.None?
  }

  /** Character i is a separator outside quotes, at depth zero once it is counted. */
  predicate Cuts(text: string, i: nat, sep: char)
    requires i < |text|
  {
    text[i] == sep && !IsQuote(sep) && Lex(text[..i]).quote.None? && Lex(text[..i + 1]).depth == 0
  }

  /** The stretches between the cuts. */
  function Pieces(text: string, sep: char): (ps: seq<string>)
    ensures ps != []
  {
    if text == "" then [""]
    else
      var n := |text| - 1;
      Extend(Pieces(text[..n], sep), text[n], Cuts(text, n, sep))
  }

  /** One more character: a cut ends the last piece, anything else joins it. */
  function Extend(ps: seq<string>, c: char, cut: bool): (ps': seq<string>)
    requires ps != []
    ensures ps' != []
  {
    if cut then ps + [""] else ps[..|ps| - 1] + [ps[|ps| - 1] + [c]]
  }

  lemma PiecesNext(text: string, i: nat, sep: char)
    requires i < |text|
    ensures Pieces(text[..i + 1], sep) == Extend(Pieces(text[..i], sep), text[i], Cuts(text, i, sep))
    ensures Lex(text[..i + 1]) == Next(Lex(text[..i]), text[i])
  {
    var t := text[..i + 1];
    assert t[..i] == text[..i] && t[..i + 1] == t;
  }

  /** Splitting loses nothing but what is trimmed: the pieces rejoin to the text. */
  lemma {:induction false} PiecesRejoin(text: string, sep: char)
    ensures Join(Pieces(text, sep), [sep]) == text
  {
    if text != "" {
      var n := |text| - 1;
      var before := Pieces(text[..n], sep);
      PiecesRejoin(text[..n], sep);
      assert text == text[..n] + [text[n]];
      var last := |before| - 1;
      assert before == before[..last] + [before[last]];
      JoinAppend(before, "", [sep]);
      JoinLast(before[..last], before[last], [text[n]], [sep]);
    }
  }

  lemma JoinLast(front: seq<string>, last: string, more: string, sep: string)
    ensures Join(front + [last + more], sep) == Join(front + [last], sep) + more
  {
    if front != [] {
      JoinAppend(front, last, sep);
      JoinAppend(front, last + more, sep);
    }
  }

  function TrimStart(s: string): string {
    if s != "" && IsSpace(s[0]) then TrimStart(s[1..]) else s
  }

  function TrimEnd(s: string): string {
    if s != "" && IsSpace(s[|s| - 1]) then TrimEnd(s[..|s| - 1]) else s
  }

  function Trim(s: string): string {
    TrimEnd(TrimStart(s))
  }

  function TrimAll(ps: seq<string>): seq<string> {
    seq(|ps|, i requires 0 <= i < |ps| => Trim(ps[i]))
  }

  /** Pieces trimmed; a blank one is kept except at the end. */
  function Kept(ps: seq<string>): seq<string>
    requires ps != []
  {
    var n := |ps| - 1;
    TrimAll(ps[..n]) + if Trim(ps[n]) != "" then [Trim(ps[n])] else []
  }

  function Split(text: string, sep: char): seq<string> {
    Kept(Pieces(text, sep))
  }

  lemma TrimAllAppend(ps: seq<string>, last: string)
    ensures TrimAll(ps + [last]) == TrimAll(ps) + [Trim(last)]
  {
  }

  /** What one more character does to the pieces: a cut closes the last, anything else lengthens it. */
  lemma Extended(was: seq<string>, c: char)
    requires was != []
    ensures var n, cut, joined := |was| - 1, Extend(was, c, true), Extend(was, c, false);
            && TrimAll(cut[..|cut| - 1]) == TrimAll(was[..n]) + [Trim(was[n])] && cut[|cut| - 1] == ""
            && joined[..|joined| - 1] == was[..n] && joined[|joined| - 1] == was[n] + [c]
  {
    var n := |was| - 1;
    TrimAllAppend(was[..n], was[n]);
    assert was == was[..n] + [was[n]];
    assert Extend(was, c, true)[..|was|] == was;
  }

  method SplitTop(text: string, separator: char) returns (parts: seq<string>)
    ensures parts == Split(text, separator)
  {
    parts := [];
    var depth := 0;
    var quote: Option<char> := None;
    var current := "";
    ghost var ps := [""];   // the pieces of what has been read
    assert text[..0] == "";
    for i := 0 to |text|
      invariant depth == Lex(text[..i]).depth && quote == Lex(text[..i]).quote
      invariant i > 0 ==> Lex(text[..i]).backslash == (text[i - 1] == '\\')
      invariant ps == Pieces(text[..i], separator)
      invariant parts == TrimAll(ps[..|ps| - 1]) && current == ps[|ps| - 1]
    {
      var c := text[i];
      PiecesNext(text, i, separator);
      assert i == 0 ==> text[..i] == "";
      Extended(ps, c);
      ps := Extend(ps, c, Cuts(text, i, separator));
      if quote.Some? {
        if c == quote.value && text[i - 1] != '\\' {
          quote := None;
        }
        current := current + [c];
        continue;
      }
      if IsQuote(c) {
        quote := Some(c);
        current := current + [c];
        continue;
      }
      if Opens(c) {
        depth := depth + 1;
      } else if Closes(c) {
        depth := depth - 1;
      }
      if c == separator && depth == 0 {
        parts := parts + [Trim(current)];
        current := "";
        continue;
      }
      current := current + [c];
    }
    assert text[..|text|] == text;
    if Trim(current) != "" {
      parts := parts + [Trim(current)];
    }
  }

  // ----------------------------------------------------------- what is read, and trimmed

  predicate Blank(s: string) {
    forall i | 0 <= i < |s| :: IsSpace(s[i])
  }

  /** Trimming takes space off both ends and nothing else. */
  lemma TrimmedMiddle(s: string) returns (front: string, back: string)
    ensures s == front + Trim(s) + back && Blank(front) && Blank(back) && Trimmed(Trim(s))
  {
    front := StartTrimmed(s);
    back := EndTrimmed(TrimStart(s));
    Rejoined(front, Trim(s), back);
  }

  lemma Rejoined(a: string, b: string, c: string)
    ensures a + (b + c) == a + b + c
  {
  }

  lemma {:induction false} StartTrimmed(s: string) returns (front: string)
    ensures s == front + TrimStart(s) && Blank(front)
    ensures TrimStart(s) == "" || !IsSpace(TrimStart(s)[0])
  {
    if s != "" && IsSpace(s[0]) {
      var rest := StartTrimmed(s[1..]);
      front := [s[0]] + rest;
      assert front + TrimStart(s) == [s[0]] + (rest + TrimStart(s[1..]));
    } else {
      front := "";
    }
  }

  lemma {:induction false} EndTrimmed(s: string) returns (back: string)
    ensures s == TrimEnd(s) + back && Blank(back)
    ensures TrimEnd(s) == "" || (!IsSpace(TrimEnd(s)[|TrimEnd(s)| - 1]) && TrimEnd(s)[0] == s[0])
  {
    if s != "" && IsSpace(s[|s| - 1]) {
      var rest := EndTrimmed(s[..|s| - 1]);
      back := rest + [s[|s| - 1]];
      assert s == s[..|s| - 1] + [s[|s| - 1]];
      assert TrimEnd(s) + back == (TrimEnd(s[..|s| - 1]) + rest) + [s[|s| - 1]];
    } else {
      back := "";
    }
  }

  /** How many of a text's characters are among some others. */
  function Count(text: string, which: string): nat {
    if text == "" then 0
    else Count(text[..|text| - 1], which) + if text[|text| - 1] in which then 1 else 0
  }

  /** Outside quotes, a stretch without quotes moves the depth by its brackets. */
  lemma {:induction false} LexUnquoted(before: string, text: string)
    requires Lex(before).quote.None? && '\'' !in text && '"' !in text
    ensures Lex(before + text).quote.None?
    ensures Lex(before + text).depth == Lex(before).depth + Count(text, "([{") - Count(text, ")]}")
  {
    if text == "" {
      assert before + text == before;
    } else {
      var n := |text| - 1;
      LexUnquoted(before, text[..n]);
      assert (before + text)[..|before| + n] == before + text[..n] && (before + text)[|before| + n] == text[n];
    }
  }

  /** A quote opened outside quotes lasts over any text in which that quote stands only after a backslash. */
  lemma {:induction false} LexInQuotes(before: string, quote: char, text: string)
    requires Lex(before).quote.None? && (quote == '\'' || quote == '"')
    requires forall i | 0 <= i < |text| && text[i] == quote :: i > 0 && text[i - 1] == '\\'
    ensures Lex(before + [quote] + text) ==
            Lexed(Lex(before).depth, Some(quote), text != "" && text[|text| - 1] == '\\')
  {
    var head := before + [quote];
    if text == "" {
      assert head + text == head && head[..|before|] == before;
    } else {
      var n := |text| - 1;
      LexInQuotes(before, quote, text[..n]);
      assert (head + text)[..|head| + n] == head + text[..n] && (head + text)[|head| + n] == text[n];
    }
  }

  /** The same quote closes it, unless a backslash comes right before; the depth is what it was. */
  lemma LexClosingQuote(before: string, quote: char, text: string)
    requires Lex(before).quote.None? && (quote == '\'' || quote == '"')
    requires forall i | 0 <= i < |text| && text[i] == quote :: i > 0 && text[i - 1] == '\\'
    ensures var after := Lex(before + [quote] + text + [quote]);
            && after.depth == Lex(before).depth
            && after.quote == if text != "" && text[|text| - 1] == '\\' then Some(quote) else None
  {
    LexInQuotes(before, quote, text);
    assert (before + [quote] + text + [quote])[..|before| + 1 + |text|] == before + [quote] + text;
  }

  /** A separator that is no quote or bracket cuts exactly where it stands outside quotes and brackets. */
  lemma CutsMeans(text: string, i: nat, sep: char)
    requires i < |text| && sep !in "'\"([{)]}"
    ensures Cuts(text, i, sep) <==> text[i] == sep && Lex(text[..i]).quote.None? && Lex(text[..i]).depth == 0
  {
    assert text[..i + 1][..i] == text[..i];
  }

  // ------------------------------------------------------------- round trip

  /** No top-level separator, balanced or not. */
  predicate Uncut(p: string, sep: char) {
    forall i | 0 <= i < |p| :: !Cuts(p, i, sep)
  }

  /** A part that can be joined: balanced, and no separator of its own at the top level. */
  predicate Neat(p: string, sep: char) {
    AtTop(p) && Uncut(p, sep)
  }

  predicate Trimmed(p: string) {
    p == "" || (!IsSpace(p[0]) && !IsSpace(p[|p| - 1]))
  }

  predicate PlainSeparator(sep: char) {
    !IsQuote(sep) && !Opens(sep) && !Closes(sep)
  }

  /** After a stretch that ends at the top level, reading starts afresh. */
  lemma {:induction false} LexAfter(before: string, p: string)
    requires AtTop(before)
    ensures Lex(before + p).depth == Lex(p).depth && Lex(before + p).quote == Lex(p).quote
    ensures p != "" ==> Lex(before + p) == Lex(p)
  {
    if p == "" {
      assert before + p == before;
    } else {
      LexAfter(before, p[..|p| - 1]);
      assert (before + p)[..|before + p| - 1] == before + p[..|p| - 1];
    }
  }

  lemma UncutFront(p: string, sep: char)
    requires Uncut(p, sep) && p != ""
    ensures Uncut(p[..|p| - 1], sep)
  {
    var n := |p| - 1;
    forall i | 0 <= i < n ensures !Cuts(p[..n], i, sep) {
      assert p[..n][..i] == p[..i] && p[..n][..i + 1] == p[..i + 1] && !Cuts(p, i, sep);
    }
  }

  /** Behind a stretch that ends at the top level, a part is cut where it would be alone. */
  lemma CutsAfter(before: string, p: string, i: nat, sep: char)
    requires AtTop(before) && i < |p|
    ensures Cuts(before + p, |before| + i, sep) == Cuts(p, i, sep)
  {
    LexAfter(before, p[..i]);
    LexAfter(before, p[..i + 1]);
    assert (before + p)[..|before| + i] == before + p[..i];
    assert (before + p)[..|before| + i + 1] == before + p[..i + 1];
  }

  lemma PiecesSnoc(text: string, c: char, sep: char)
    ensures Pieces(text + [c], sep) == Extend(Pieces(text, sep), c, Cuts(text + [c], |text|, sep))
  {
    assert (text + [c])[..|text|] == text;
  }

  lemma OpensAPart(before: string, sep: char)
    requires PlainSeparator(sep) && AtTop(before)
    ensures AtTop(before + [sep]) && Pieces(before + [sep], sep) == Pieces(before, sep) + [""]
  {
    var head := before + [sep];
    assert head[..|before|] == before && head[..|before| + 1] == head;
    PiecesSnoc(before, sep, sep);
  }

  lemma UncutEnd(head: string, p: string, sep: char)
    requires AtTop(head) && Uncut(p, sep) && p != ""
    ensures Uncut(p[..|p| - 1], sep)
    ensures !Cuts(head + p, |head| + |p| - 1, sep)
  {
    UncutFront(p, sep);
    CutsAfter(head, p, |p| - 1, sep);
  }

  /** A character that cuts nothing lengthens the last piece. */
  lemma GrowsLast(text: string, c: char, ps: seq<string>, last: string, sep: char)
    requires Pieces(text, sep) == ps + [last] && !Cuts(text + [c], |text|, sep)
    ensures Pieces(text + [c], sep) == ps + [last + [c]]
  {
    PiecesSnoc(text, c, sep);
    assert (ps + [last])[..|ps|] == ps;
  }

  lemma EndSplits(head: string, p: string)
    requires p != ""
    ensures p == p[..|p| - 1] + [p[|p| - 1]] && head + p == (head + p[..|p| - 1]) + [p[|p| - 1]]
  {
  }

  lemma PieceGrows(head: string, p: string, ps: seq<string>, sep: char)
    requires AtTop(head) && Uncut(p, sep) && p != ""
    requires Pieces(head + p[..|p| - 1], sep) == ps + [p[..|p| - 1]]
    ensures Pieces(head + p, sep) == ps + [p]
  {
    UncutEnd(head, p, sep);
    EndSplits(head, p);
    GrowsLast(head + p[..|p| - 1], p[|p| - 1], ps, p[..|p| - 1], sep);
  }

  lemma {:induction false} PiecesAfter(before: string, p: string, sep: char)
    requires PlainSeparator(sep) && AtTop(before) && Uncut(p, sep)
    ensures Pieces(before + [sep] + p, sep) == Pieces(before, sep) + [p]
  {
    var head := before + [sep];
    OpensAPart(before, sep);
    if p == "" {
      assert head + p == head;
    } else {
      UncutFront(p, sep);
      PiecesAfter(before, p[..|p| - 1], sep);
      PieceGrows(head, p, Pieces(before, sep), sep);
    }
  }

  lemma {:induction false} PiecesAlone(p: string, sep: char)
    requires Uncut(p, sep)
    ensures Pieces(p, sep) == [p]
  {
    if p != "" {
      var n := |p| - 1;
      UncutFront(p, sep);
      PiecesAlone(p[..n], sep);
      assert [] + [p[..n]] == [p[..n]];
      EndSplits("", p);
      GrowsLast(p[..n], p[n], [], p[..n], sep);
    }
  }

  lemma {:induction false} PiecesOfJoin(ps: seq<string>, sep: char)
    requires PlainSeparator(sep) && ps != [] && forall p | p in ps :: Neat(p, sep)
    ensures Pieces(Join(ps, [sep]), sep) == ps && AtTop(Join(ps, [sep]))
  {
    var n := |ps| - 1;
    assert ps == ps[..n] + [ps[n]];
    assert Neat(ps[n], sep);
    if n == 0 {
      PiecesAlone(ps[0], sep);
    } else {
      PiecesOfJoin(ps[..n], sep);
      var before := Join(ps[..n], [sep]);
      JoinAppend(ps[..n], ps[n], [sep]);
      PiecesAfter(before, ps[n], sep);
      assert (before + [sep])[..|before|] == before;
      LexAfter(before + [sep], ps[n]);
    }
  }

  lemma TrimmedKept(ps: seq<string>)
    requires ps != [] && forall p | p in ps :: Trimmed(p)
    ensures Kept(ps) == if ps[|ps| - 1] == "" then ps[..|ps| - 1] else ps
  {
    var n := |ps| - 1;
    assert ps == ps[..n] + [ps[n]];
    TrimAllKeeps(ps[..n]);
    TrimmedTrims(ps[n]);
  }

  /** Splitting a join of neat, trimmed parts returns them, except that a blank last part is lost:
      so it is a round trip exactly when the last part is not blank. */
  lemma SplitUndoesJoin(ps: seq<string>, sep: char)
    requires PlainSeparator(sep) && forall p | p in ps :: Neat(p, sep) && Trimmed(p)
    ensures Split(Join(ps, [sep]), sep) == if ps != [] && ps[|ps| - 1] == "" then ps[..|ps| - 1] else ps
    ensures Split(Join(ps, [sep]), sep) == ps <==> ps == [] || ps[|ps| - 1] != ""
  {
    if ps != [] {
      PiecesOfJoin(ps, sep);
      TrimmedKept(ps);
    }
  }

  lemma TrimAllKeeps(ps: seq<string>)
    requires forall p | p in ps :: Trimmed(p)
    ensures TrimAll(ps) == ps
  {
    forall i | 0 <= i < |ps| ensures Trim(ps[i]) == ps[i] { TrimmedTrims(ps[i]); }
  }

  lemma TrimmedTrims(p: string)
    requires Trimmed(p)
    ensures Trim(p) == p
  {
  }
}
