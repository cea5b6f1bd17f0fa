/** String helpers of the script language: split, join, search. */
module Text {
  /** parts.join(sep) */
  function Join(parts: seq<string>, sep: string): string {
    if parts == [] then "" else if |parts| == 1 then parts[0] else parts[0] + sep + Join(parts[1..], sep)
  }

  /** text.split(sep) for a one-character separator. */
  function Split(text: string, sep: char): (parts: seq<string>)
    ensures parts != [] && Join(parts, [sep]) == text
    ensures forall part | part in parts :: sep !in part
  {
    if text == "" then [""]
    else
      var rest := Split(text[1..], sep);
      if text[0] == sep then
        assert ([""] + rest)[1..] == rest;
        [""] + rest
      else
        var parts := [[text[0]] + rest[0]] + rest[1..];
        assert parts[1..] == rest[1..];
        parts
  }

  lemma {:induction false} JoinAppend(parts: seq<string>, last: string, sep: string)
    requires parts != []
    ensures Join(parts + [last], sep) == Join(parts, sep) + sep + last
  {
    if |parts| > 1 {
      assert (parts + [last])[1..] == parts[1..] + [last];
      JoinAppend(parts[1..], last, sep);
    } else {
      assert (parts + [last])[1..] == [last];
    }
  }

  /** text.indexOf(wanted) !== -1 */
  predicate HasSubstring(text: string, wanted: string) {
    wanted <= text || (text != "" && HasSubstring(text[1..], wanted))
  }

  /** wanted stands in text from place i on. */
  predicate OccursAt(text: string, wanted: string, i: nat) {
    i + |wanted| <= |text| && text[i..i + |wanted|] == wanted
  }

  lemma OccursLater(text: string, wanted: string, i: nat)
    requires text != ""
    ensures OccursAt(text, wanted, i + 1) <==> OccursAt(text[1..], wanted, i)
  {
    if i + 1 + |wanted| <= |text| {
      assert text[1..][i..i + |wanted|] == text[i + 1..i + 1 + |wanted|];
    }
  }

  lemma {:induction false} FoundWhereItOccurs(text: string, wanted: string)
    ensures HasSubstring(text, wanted) <==> exists i: nat :: OccursAt(text, wanted, i)
  {
    assert wanted <= text <==> OccursAt(text, wanted, 0);
    if text != "" {
      FoundWhereItOccurs(text[1..], wanted);
      if i: nat :| OccursAt(text[1..], wanted, i) {
        OccursLater(text, wanted, i);
      }
      if i: nat :| i > 0 && OccursAt(text, wanted, i) {
        OccursLater(text, wanted, i - 1);
      }
    }
  }

  /** x stands in text from place i on as a whole line. */
  predicate LineAt(text: string, x: string, i: nat) {
    && OccursAt(text, x, i) && '\n' !in x
    && (i == 0 || text[i - 1] == '\n') && (i + |x| == |text| || text[i + |x|] == '\n')
  }

  lemma LineLater(text: string, x: string, i: nat)
    requires text != "" && i > 0
    ensures LineAt(text, x, i + 1) <==> LineAt(text[1..], x, i)
  {
    if i + 1 + |x| <= |text| { assert text[1..][i..i + |x|] == text[i + 1..i + 1 + |x|]; }
  }

  /** The lines after the first are the first after the break, or lines later on. */
  lemma LaterLines(text: string, x: string)
    requires text != ""
    ensures (exists i: nat :: i > 0 && LineAt(text, x, i)) <==>
            (text[0] == '\n' && LineAt(text[1..], x, 0)) || exists i: nat :: i > 0 && LineAt(text[1..], x, i)
  {
    AfterBreak(text, x);
    if exists i: nat :: i > 0 && LineAt(text, x, i) {
      var i: nat :| i > 0 && LineAt(text, x, i);
      if i > 1 { LineLater(text, x, i - 1); }
    }
    if exists i: nat :: i > 0 && LineAt(text[1..], x, i) {
      var i: nat :| i > 0 && LineAt(text[1..], x, i);
      LineLater(text, x, i);
    }
  }

  lemma SplitAfterFirst(text: string)
    requires text != ""
    ensures Split(text, '\n')[1..] ==
            if text[0] == '\n' then Split(text[1..], '\n') else Split(text[1..], '\n')[1..]
  {
  }

  /** Splitting on line breaks gives the lines: the first, and those that start after a break. */
  lemma {:induction false} SplitLines(text: string, x: string)
    ensures x == Split(text, '\n')[0] <==> LineAt(text, x, 0)
    ensures x in Split(text, '\n')[1..] <==> exists i: nat :: i > 0 && LineAt(text, x, i)
  {
    FirstLine(text, x);
    if text != "" {
      SplitLines(text[1..], x);
      LaterLines(text, x);
      SplitAfterFirst(text);
      var rest := Split(text[1..], '\n');
      assert x in rest <==> x == rest[0] || x in rest[1..] by { assert rest == [rest[0]] + rest[1..]; }
    }
  }

  lemma SplitIsLines(text: string, x: string)
    ensures x in Split(text, '\n') <==> exists i: nat :: LineAt(text, x, i)
  {
    SplitLines(text, x);
    var parts := Split(text, '\n');
    assert parts == [parts[0]] + parts[1..];
  }

  lemma AfterBreak(text: string, x: string)
    requires text != ""
    ensures LineAt(text, x, 1) <==> text[0] == '\n' && LineAt(text[1..], x, 0)
  {
    if 1 + |x| <= |text| { assert text[1..][0..|x|] == text[1..1 + |x|]; }
  }

  lemma {:induction false} FirstLine(text: string, x: string)
    ensures x == Split(text, '\n')[0] <==> LineAt(text, x, 0)
  {
    if text != "" {
      if text[0] != '\n' && x != "" {
        FirstLine(text[1..], x[1..]);
        assert x == [x[0]] + x[1..];
        if |x| <= |text| { assert text[0..|x|][1..] == text[1..][0..|x| - 1]; }
      }
    }
  }

  /** The codes of those characters: ECMAScript's white space and line terminators. */
  lemma SpaceCodes(c: char)
    ensures var n := c as int;
            IsSpace(c) <==> n in {9, 10, 11, 12, 13, 32, 160, 5760, 8232, 8233, 8239, 8287, 12288, 65279}
                            || 8192 <= n <= 8202
  {
  }

  /** The characters trim() removes. */
  predicate IsSpace(c: char) {
    || '\t' <= c <= '\r' || c == ' ' || c == '\U{A0}' || c == '\U{1680}' || '\U{2000}' <= c <= '\U{200A}'
    || c == '\U{2028}' || c == '\U{2029}' || c == '\U{202F}' || c == '\U{205F}' || c == '\U{3000}' || c == '\U{FEFF}'
  }
}
