/**
  Marking coins up in running text: `coinSpan` and `coinReplace` of
  data/static/venture.js.  What the patterns find is taken as given: any
  stretches of the text, in any order, overlapping or not.
 */
module CoinMarkup {
  import opened Text

  datatype Child = Plain(text: string) | Coin(rank: nat, amount: string, mark: string)

  datatype Node = Words(text: string) | Coins(negative: bool, children: seq<Child>)

  function ChildText(child: Child): string {
    match child
    case Plain(text) => text
    case Coin(_, amount, mark) => amount + mark
  }

  function ChildrenText(children: seq<Child>): string {
    if children == [] then "" else ChildrenText(children[..|children| - 1]) + ChildText(children[|children| - 1])
  }

  function NodeText(node: Node): string {
    match node
    case Words(text) => text
    case Coins(_, children) => ChildrenText(children)
  }

  function NodesText(nodes: seq<Node>): string {
    if nodes == [] then "" else NodesText(nodes[..|nodes| - 1]) + NodeText(nodes[|nodes| - 1])
  }

  lemma ChildrenTextAppend(children: seq<Child>, child: Child)
    ensures ChildrenText(children + [child]) == ChildrenText(children) + ChildText(child)
  {
    assert (children + [child])[..|children|] == children;
  }

  /** text.slice(0, -n) and text.slice(-n): with n zero, -n is zero too. */
  function SliceOff(text: string, n: nat): string
    requires n <= |text|
  {
    if n == 0 then "" else text[..|text| - n]
  }

  function SliceLast(text: string, n: nat): string
    requires n <= |text|
  {
    if n == 0 then text else text[|text| - n..]
  }

  predicate EndsInDigit(text: string) {
    text != "" && '0' <= text[|text| - 1] <= '9'
  }

  /** Whether a part is an amount with this suffix, in any letter case. */
  predicate HasSuffix(part: string, suffix: string, lower: string -> string) {
    && |part| > |suffix|
    && lower(SliceLast(part, |suffix|)) == lower(suffix)
    && EndsInDigit(SliceOff(part, |suffix|))
  }

  /** Unit k is the first whose suffix the part carries. */
  predicate FirstUnit(part: string, suffixes: seq<string>, lower: string -> string, k: nat)
    requires k < |suffixes|
  {
    HasSuffix(part, suffixes[k], lower) && forall j | 0 <= j < k :: !HasSuffix(part, suffixes[j], lower)
  }

  /** What one word of a matched stretch becomes: a coin cut before its suffix, or plain text. */
  predicate IsWord(child: Child, part: string, suffixes: seq<string>, lower: string -> string) {
    match child
    case Plain(text) => text == part && forall k | 0 <= k < |suffixes| :: !HasSuffix(part, suffixes[k], lower)
    case Coin(rank, amount, mark) =>
      exists k | 0 <= k < |suffixes| ::
        && FirstUnit(part, suffixes, lower, k)
        && rank == (if k + 1 < 3 then k + 1 else 3)
        && amount == SliceOff(part, |suffixes[k]|) && mark == SliceLast(part, |suffixes[k]|)
  }

  /** The words in order, a space between each two. */
  predicate Spells(children: seq<Child>, parts: seq<string>, suffixes: seq<string>, lower: string -> string) {
    if parts == [] then children == []
    else
      var n := if |parts| == 1 then 1 else 2;
      && |children| >= n
      && IsWord(children[|children| - 1], parts[|parts| - 1], suffixes, lower)
      && (n == 2 ==> children[|children| - 2] == Plain(" "))
      && Spells(children[..|children| - n], parts[..|parts| - 1], suffixes, lower)
  }

  /** A word's text is kept whatever it becomes. */
  lemma WordKeepsText(child: Child, part: string, suffixes: seq<string>, lower: string -> string)
    requires IsWord(child, part, suffixes, lower)
    ensures ChildText(child) == part
  {
  }

  /** The first unit whose suffix the part carries, counted from 1; 0 for none. */
  method Rank(part: string, suffixes: seq<string>, lower: string -> string) returns (rank: nat)
    ensures rank <= |suffixes|
    ensures rank == 0 ==> forall k | 0 <= k < |suffixes| :: !HasSuffix(part, suffixes[k], lower)
    ensures rank > 0 ==> FirstUnit(part, suffixes, lower, rank - 1)
  {
    for k := 0 to |suffixes|
      invariant forall j | 0 <= j < k :: !HasSuffix(part, suffixes[j], lower)
    {
      if HasSuffix(part, suffixes[k], lower) {
        return k + 1;
      }
    }
    return 0;
  }

  /** One word's node. */
  method CoinWord(part: string, suffixes: seq<string>, lower: string -> string) returns (child: Child)
    ensures IsWord(child, part, suffixes, lower) && ChildText(child) == part
  {
    var rank := Rank(part, suffixes, lower);
    if rank > 0 {
      var n := |suffixes[rank - 1]|;
      child := Coin(if rank < 3 then rank else 3, SliceOff(part, n), SliceLast(part, n));
    } else {
      child := Plain(part);
    }
    WordKeepsText(child, part, suffixes, lower);
  }

  method CoinSpan(text: string, suffixes: seq<string>, lower: string -> string) returns (wrap: Node)
    ensures wrap.Coins? && NodeText(wrap) == text
    ensures Spells(wrap.children, Split(text, ' '), suffixes, lower)
    ensures wrap.negative <==> "-" <= Split(text, ' ')[0]
  {
    var parts := Split(text, ' ');
    var children: seq<Child> := [];
    for i := 0 to |parts|
      invariant Spells(children, parts[..i], suffixes, lower)
      invariant ChildrenText(children) == Join(parts[..i], " ")
    {
      ghost var was := children;
      var child := CoinWord(parts[i], suffixes, lower);
      SpellsOneMore(was, child, parts, i, suffixes, lower);
      TextOneMore(was, child, parts, i);
      if i > 0 {
        children := children + [Plain(" ")];
      }
      children := children + [child];
      assert children == was + (if i > 0 then [Plain(" ")] else []) + [child];
    }
    assert parts[..|parts|] == parts;
    wrap := Coins(parts[0] != "" && parts[0][0] == '-', children);
  }

  lemma TextOneMore(was: seq<Child>, child: Child, parts: seq<string>, i: nat)
    requires i < |parts| && ChildrenText(was) == Join(parts[..i], " ") && ChildText(child) == parts[i]
    requires i == 0 ==> was == []
    ensures ChildrenText(was + (if i > 0 then [Plain(" ")] else []) + [child]) == Join(parts[..i + 1], " ")
  {
    assert parts[..i + 1] == parts[..i] + [parts[i]];
    if i > 0 {
      ChildrenTextAppend(was, Plain(" "));
      ChildrenTextAppend(was + [Plain(" ")], child);
      JoinAppend(parts[..i], parts[i], " ");
    } else {
      assert was + [] + [child] == [] + [child];
      ChildrenTextAppend([], child);
    }
  }

  lemma SpellsOneMore(was: seq<Child>, child: Child, parts: seq<string>, i: nat,
                      suffixes: seq<string>, lower: string -> string)
    requires i < |parts| && Spells(was, parts[..i], suffixes, lower) && IsWord(child, parts[i], suffixes, lower)
    ensures Spells(was + (if i > 0 then [Plain(" ")] else []) + [child], parts[..i + 1], suffixes, lower)
  {
    var space := if i > 0 then [Plain(" ")] else [];
    SpaceThenChild(was, space, child);
    assert parts[..i + 1][..i] == parts[..i] && parts[..i + 1][i] == parts[i];
  }

  lemma SpaceThenChild(was: seq<Child>, space: seq<Child>, child: Child)
    requires |space| <= 1
    ensures var children := was + space + [child];
            && |children| == |was| + |space| + 1
            && children[..|children| - |space| - 1] == was && children[|children| - 1] == child
            && (|space| == 1 ==> children[|children| - 2] == space[0])
  {
  }

  /** A part carries a suffix exactly when it is an amount that ends in a digit, then the suffix in any letter
      case; an empty suffix is never carried. */
  lemma SuffixMeans(part: string, suffix: string, lower: string -> string)
    ensures HasSuffix(part, suffix, lower) <==>
              suffix != "" && exists amount, mark :: AmountThenMark(part, amount, mark, suffix, lower)
  {
    if HasSuffix(part, suffix, lower) {
      CutBeforeSuffix(part, suffix, lower);
    }
    if suffix != "" && exists amount, mark :: AmountThenMark(part, amount, mark, suffix, lower) {
      var amount, mark :| AmountThenMark(part, amount, mark, suffix, lower);
      assert SliceOff(part, |suffix|) == amount && SliceLast(part, |suffix|) == mark;
    }
  }

  predicate AmountThenMark(part: string, amount: string, mark: string, suffix: string, lower: string -> string) {
    && part == amount + mark && |mark| == |suffix| && lower(mark) == lower(suffix)
    && amount != "" && '0' <= amount[|amount| - 1] <= '9'
  }

  lemma CutBeforeSuffix(part: string, suffix: string, lower: string -> string)
    requires HasSuffix(part, suffix, lower)
    ensures suffix != ""
    ensures AmountThenMark(part, SliceOff(part, |suffix|), SliceLast(part, |suffix|), suffix, lower)
  {
  }

  /** A word becomes a coin exactly when it carries a suffix: of the first unit it does, at most the third
      colour, cut between amount and mark. */
  lemma WordMeans(child: Child, part: string, suffixes: seq<string>, lower: string -> string)
    requires IsWord(child, part, suffixes, lower)
    ensures child.Plain? ==>
              child.text == part && forall k | 0 <= k < |suffixes| :: !HasSuffix(part, suffixes[k], lower)
    ensures child.Coin? ==>
              exists k | 0 <= k < |suffixes| ::
                && AmountThenMark(part, child.amount, child.mark, suffixes[k], lower)
                && (forall j | 0 <= j < k :: !HasSuffix(part, suffixes[j], lower))
                && 1 <= child.rank <= 3 && (child.rank == k + 1 || (child.rank == 3 && k >= 3))
  {
    if child.Coin? {
      var k :| 0 <= k < |suffixes| && FirstUnit(part, suffixes, lower, k)
        && child.rank == (if k + 1 < 3 then k + 1 else 3)
        && child.amount == SliceOff(part, |suffixes[k]|) && child.mark == SliceLast(part, |suffixes[k]|);
      CutBeforeSuffix(part, suffixes[k], lower);
    }
  }

  /** So the words stand at the even places, each as what it becomes, with a space between each two. */
  lemma {:induction false} WordsInPlace(children: seq<Child>, parts: seq<string>, suffixes: seq<string>,
                                        lower: string -> string)
    requires Spells(children, parts, suffixes, lower)
    ensures |children| == if parts == [] then 0 else 2 * |parts| - 1
    ensures forall i | 0 <= i < |parts| :: IsWord(children[2 * i], parts[i], suffixes, lower)
    ensures forall i | 0 <= i < |parts| - 1 :: children[2 * i + 1] == Plain(" ")
  {
    if parts != [] {
      var n, k := if |parts| == 1 then 1 else 2, |parts| - 1;
      WordsInPlace(children[..|children| - n], parts[..k], suffixes, lower);
      assert forall i | 0 <= i < k :: children[..|children| - n][2 * i] == children[2 * i] && parts[..k][i] == parts[i];
      assert forall i | 0 <= i < k - 1 :: children[..|children| - n][2 * i + 1] == children[2 * i + 1];
    }
  }

  // ------------------------------------------------------------ whole text nodes

  datatype Match = Match(start: nat, end: nat, suffixes: seq<string>)

  predicate InRange(m: Match, value: string) {
    m.start <= m.end <= |value|
  }

  /** The matches used from the i-th on: each one that starts at or after the end of the last used. */
  function Used(found: seq<Match>, i: nat, at: nat): seq<Match>
    requires i <= |found|
    decreases |found| - i
  {
    if i == |found| then []
    else if found[i].start < at then Used(found, i + 1, at)
    else [found[i]] + Used(found, i + 1, found[i].end)
  }

  /** The stretches marked up, in order. */
  function Marked(nodes: seq<Node>): seq<string> {
    if nodes == [] then []
    else Marked(nodes[..|nodes| - 1])
         + if nodes[|nodes| - 1].Coins? then [NodeText(nodes[|nodes| - 1])] else []
  }

  function Stretch(m: Match, value: string): string {
    if InRange(m, value) then value[m.start..m.end] else ""
  }

  function Stretches(ms: seq<Match>, value: string): seq<string> {
    seq(|ms|, i requires 0 <= i < |ms| => Stretch(ms[i], value))
  }

  lemma StretchesAppend(ms: seq<Match>, m: Match, value: string)
    ensures Stretches(ms + [m], value) == Stretches(ms, value) + [Stretch(m, value)]
  {
  }

  lemma NothingUsed(found: seq<Match>, value: string)
    requires found == []
    ensures Stretches(Used(found, 0, 0), value) == []
  {
  }

  lemma UsedStep(used: seq<Match>, found: seq<Match>, i: nat, at: nat)
    requires i < |found|
    ensures used + Used(found, i, at) ==
            if found[i].start < at then used + Used(found, i + 1, at)
            else (used + [found[i]]) + Used(found, i + 1, found[i].end)
  {
  }

  /** The nodes a text node is replaced by: whatever was found, their text is the text it had; and what
      is marked up is exactly the matches used. */
  method CoinReplace(value: string, found: seq<Match>, lower: string -> string) returns (nodes: seq<Node>)
    requires forall m | m in found :: InRange(m, value)
    ensures NodesText(nodes) == value
    ensures Marked(nodes) == Stretches(Used(found, 0, 0), value)
  {
    nodes := [];
    if found == [] {
      nodes := Append(nodes, Words(value));
      NothingUsed(found, value);
      return;
    }
    var at: nat := 0;
    ghost var used: seq<Match> := [];
    for i := 0 to |found|
      invariant at <= |value| && NodesText(nodes) == value[..at]
      invariant Marked(nodes) == Stretches(used, value)
      invariant used + Used(found, i, at) == Used(found, 0, 0)
    {
      var m := found[i];
      assert m in found;
      UsedStep(used, found, i, at);
      if m.start < at { continue; }
      nodes := AppendMatch(value, nodes, at, m, lower);
      StretchesAppend(used, m, value);
      used := used + [m];
      at := m.end;
    }
    assert used + [] == used;
    if at < |value| {
      SliceJoin(value, at, |value|);
      nodes := Append(nodes, Words(value[at..]));
    }
    assert value[..|value|] == value;
  }

  lemma SliceJoin(value: string, a: nat, b: nat)
    requires a <= b <= |value|
    ensures value[..b] == value[..a] + value[a..b]
  {
  }

  /** The words up to a match, and the match. */
  method AppendMatch(value: string, nodes: seq<Node>, at: nat, m: Match, lower: string -> string)
      returns (more: seq<Node>)
    requires at <= m.start && InRange(m, value) && NodesText(nodes) == value[..at]
    ensures NodesText(more) == value[..m.end]
    ensures Marked(more) == Marked(nodes) + [Stretch(m, value)]
  {
    more := nodes;
    SliceJoin(value, at, m.start);
    SliceJoin(value, m.start, m.end);
    if m.start > at {
      more := Append(more, Words(value[at..m.start]));
    }
    var span := CoinSpan(value[m.start..m.end], m.suffixes, lower);
    more := Append(more, span);
  }

  /** fragment.appendChild */
  method Append(nodes: seq<Node>, node: Node) returns (more: seq<Node>)
    ensures more == nodes + [node]
    ensures NodesText(more) == NodesText(nodes) + NodeText(node)
    ensures Marked(more) == Marked(nodes) + if node.Coins? then [NodeText(node)] else []
  {
    more := nodes + [node];
    assert more[..|nodes|] == nodes;
  }

  lemma {:induction false} UsedAreFound(found: seq<Match>, k: nat, at: nat)
    requires k <= |found|
    ensures forall m | m in Used(found, k, at) :: m in found
    decreases |found| - k
  {
    if k < |found| {
      UsedAreFound(found, k + 1, at);
      UsedAreFound(found, k + 1, found[k].end);
    }
  }

  predicate Sorted(found: seq<Match>) {
    forall i, j | 0 <= i < j < |found| :: found[i].start <= found[j].start
  }

  lemma {:induction false} UsedInOrder(found: seq<Match>, k: nat, at: nat)
    requires k <= |found| && forall m | m in found :: m.start <= m.end
    ensures forall i | 0 <= i < |Used(found, k, at)| :: at <= Used(found, k, at)[i].start <= Used(found, k, at)[i].end
    ensures forall i, j | 0 <= i < j < |Used(found, k, at)| :: Used(found, k, at)[i].end <= Used(found, k, at)[j].start
    decreases |found| - k
  {
    if k < |found| {
      assert found[k] in found;
      if found[k].start < at {
        UsedInOrder(found, k + 1, at);
      } else {
        var rest := Used(found, k + 1, found[k].end);
        UsedInOrder(found, k + 1, found[k].end);
        assert Used(found, k, at) == [found[k]] + rest;
        forall j | 0 < j < |Used(found, k, at)| ensures Used(found, k, at)[j] == rest[j - 1] {}
      }
    }
  }

  /** With the matches in order of their starts, as the script sorts them, each one left out starts
      inside one that is used: no further one could be marked up without an overlap. */
  lemma {:induction false} LeftOutOverlaps(found: seq<Match>, k: nat, at: nat, i: nat)
    requires Sorted(found) && k <= i < |found| && found[i] !in Used(found, k, at) && found[i].start >= at
    ensures exists u | u in Used(found, k, at) :: u.start <= found[i].start < u.end
    decreases |found| - k
  {
    if found[k].start < at {
      LeftOutOverlaps(found, k + 1, at, i);
    } else {
      var rest := Used(found, k + 1, found[k].end);
      assert Used(found, k, at) == [found[k]] + rest && i > k;
      if found[i].start < found[k].end {
        assert found[k] in Used(found, k, at);
      } else {
        assert found[i] !in rest;
        LeftOutOverlaps(found, k + 1, found[k].end, i);
        var u :| u in rest && u.start <= found[i].start < u.end;
        assert u in Used(found, k, at);
      }
    }
  }
}
