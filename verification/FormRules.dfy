/**
  Conditional fields: `wireRules` of data/static/forms.js.

  One update visits the fields in page order.  Each visit reads the form as it
  then stands, so a field switched off earlier in the same pass no longer
  answers, and one switched off by the previous pass still does not.
 */
module FormRules {
  import opened Text

  datatype Operator = Equals | NotEquals | Contains | AnyOf | IsEmpty | GreaterThan | LessThan | Unknown

  datatype Condition = Condition(field: string, operator: Operator, value: string)

  datatype Action = Show | Hide | Require | NoAction

  datatype Rule = Rule(
    target: string, action: Action, fromPage: int, matched: bool, any: bool,
    conditions: seq<Condition>, conditionMatches: seq<bool>)

  datatype Field = Field(key: string, requiredBase: bool, multipleChoice: bool)

  /** What Number(text) can be. */
  datatype Num = NotANumber | NegativeInfinity | Finite(value: real) | PositiveInfinity

  /** The page as drawn: `named` are the names of its controls, `number` is Number(). */
  datatype Form = Form(page: int, rules: seq<Rule>, fields: seq<Field>, named: set<string>, number: string -> Num)

  /** What each named control would submit if it were enabled. */
  type Answers = map<string, seq<string>>

  /** What the pass writes on the fields: `hidden` is always `disabled`. */
  datatype Marks = Marks(disabled: seq<bool>, required: seq<bool>)

  predicate Fits(form: Form, m: Marks) {
    |m.disabled| == |m.required| == |form.fields|
  }

  // ------------------------------------------------------------ the conditions

  predicate Less(a: Num, b: Num) {
    match (a, b)
    case (NotANumber, _) => false
    case (_, NotANumber) => false
    case (Finite(x), Finite(y)) => x < y
    case (NegativeInfinity, _) => b != NegativeInfinity
    case (Finite(_), _) => b.PositiveInfinity?
    case (PositiveInfinity, _) => false
  }

  predicate Atom(number: string -> Num, actual: string, operator: Operator, wanted: string) {
    match operator
    case Equals => actual == wanted
    case NotEquals => actual == wanted
    case Contains => HasSubstring(actual, wanted)
    case AnyOf => actual in Split(wanted, '\n')
    case _ =>
      && actual != "" && !IsSpace(actual[|actual| - 1]) && number(actual).Finite?
      && (if operator.GreaterThan? then Less(number(wanted), number(actual))
          else operator.LessThan? && Less(number(actual), number(wanted)))
  }

  /** new FormData(form).getAll(name): a disabled field's controls are not in it. */
  function GetAll(form: Form, answers: Answers, disabled: seq<bool>, name: string): seq<string>
    requires |disabled| == |form.fields|
  {
    if exists i | 0 <= i < |form.fields| :: form.fields[i].key == name && disabled[i] then []
    else if name in answers then answers[name] else []
  }

  predicate ConditionMatches(form: Form, answers: Answers, disabled: seq<bool>, rule: Rule, index: nat)
    requires |disabled| == |form.fields| && index < |rule.conditions|
  {
    var condition := rule.conditions[index];
    if condition.field !in form.named then index < |rule.conditionMatches| && rule.conditionMatches[index]
    else
      var given := GetAll(form, answers, disabled, condition.field);
      if condition.operator.IsEmpty? then forall x | x in given :: x == ""
      else
        var found := exists x | x in (if given == [] then [""] else given) ::
          Atom(form.number, x, condition.operator, condition.value);
        if condition.operator.NotEquals? then !found else found
  }

  predicate Match(form: Form, answers: Answers, disabled: seq<bool>, rule: Rule)
    requires |disabled| == |form.fields|
  {
    if rule.fromPage != form.page then rule.matched
    else if rule.any then
      exists k | 0 <= k < |rule.conditions| :: ConditionMatches(form, answers, disabled, rule, k)
    else
      forall k | 0 <= k < |rule.conditions| :: ConditionMatches(form, answers, disabled, rule, k)
  }

  /** Whether a rule switches a field off. */
  predicate SwitchesOff(form: Form, answers: Answers, disabled: seq<bool>, rule: Rule, key: string)
    requires |disabled| == |form.fields|
  {
    rule.target == key && ((rule.action.Show? && !Match(form, answers, disabled, rule))
                           || (rule.action.Hide? && Match(form, answers, disabled, rule)))
  }

  predicate Demands(form: Form, answers: Answers, disabled: seq<bool>, rule: Rule, key: string)
    requires |disabled| == |form.fields|
  {
    rule.target == key && rule.action.Require? && Match(form, answers, disabled, rule)
  }

  /** Field i is active when no rule switches it off. */
  predicate Active(form: Form, answers: Answers, disabled: seq<bool>, i: nat)
    requires |disabled| == |form.fields| && i < |form.fields|
  {
    forall rule | rule in form.rules :: !SwitchesOff(form, answers, disabled, rule, form.fields[i].key)
  }

  predicate Required(form: Form, answers: Answers, disabled: seq<bool>, i: nat)
    requires |disabled| == |form.fields| && i < |form.fields|
  {
    && Active(form, answers, disabled, i) && !form.fields[i].multipleChoice
    && (form.fields[i].requiredBase
        || exists rule | rule in form.rules :: Demands(form, answers, disabled, rule, form.fields[i].key))
  }

  // ------------------------------------------------------------------ one pass

  function Visit(form: Form, answers: Answers, m: Marks, i: nat): Marks
    requires Fits(form, m) && i < |form.fields|
  {
    Marks(m.disabled[i := !Active(form, answers, m.disabled, i)],
          m.required[i := Required(form, answers, m.disabled, i)])
  }

  /** The pass from field i on. */
  function Sweep(form: Form, answers: Answers, m: Marks, i: nat): (m': Marks)
    requires Fits(form, m) && i <= |form.fields|
    ensures Fits(form, m')
    ensures m'.disabled[..i] == m.disabled[..i] && m'.required[..i] == m.required[..i]
    decreases |form.fields| - i
  {
    if i == |form.fields| then m
    else
      var m1 := Visit(form, answers, m, i);
      assert m1.disabled[..i] == m.disabled[..i] && m1.required[..i] == m.required[..i];
      var m' := Sweep(form, answers, m1, i + 1);
      assert m'.disabled[..i] == m'.disabled[..i + 1][..i] && m'.required[..i] == m'.required[..i + 1][..i];
      m'
  }

  function Update(form: Form, answers: Answers, m: Marks): Marks
    requires Fits(form, m)
  {
    Sweep(form, answers, m, 0)
  }

  /** Field i's marks agree with the rules, read against all of those same marks. */
  predicate Agrees(form: Form, answers: Answers, m: Marks, i: nat)
    requires Fits(form, m) && i < |form.fields|
  {
    && m.disabled[i] == !Active(form, answers, m.disabled, i)
    && m.required[i] == Required(form, answers, m.disabled, i)
  }

  predicate Settled(form: Form, answers: Answers, m: Marks) {
    Fits(form, m) && forall i | 0 <= i < |form.fields| :: Agrees(form, answers, m, i)
  }

  /** Every rule of this page reads only fields before its target: the server refuses to save or publish
      any other (src/forms/venture-forms-rules.c:84). */
  predicate Forward(form: Form) {
    forall rule, c, i, j | rule in form.rules && rule.fromPage == form.page && c in rule.conditions
        && 0 <= i < |form.fields| && 0 <= j < |form.fields|
        && form.fields[i].key == rule.target && form.fields[j].key == c.field :: j < i
  }

  // --------------------------------------------------------- the fixpoint

  /** A field's marks depend only on the flags before it. */
  lemma ReadsEarlier(form: Form, answers: Answers, d: seq<bool>, e: seq<bool>, rule: Rule, i: nat)
    requires Forward(form) && rule in form.rules && |d| == |e| == |form.fields| && i < |form.fields|
    requires rule.target == form.fields[i].key && d[..i] == e[..i]
    ensures Match(form, answers, d, rule) == Match(form, answers, e, rule)
  {
    if rule.fromPage == form.page {
      forall k | 0 <= k < |rule.conditions|
        ensures ConditionMatches(form, answers, d, rule, k) == ConditionMatches(form, answers, e, rule, k)
      {
        var name := rule.conditions[k].field;
        forall j | 0 <= j < |form.fields| && form.fields[j].key == name
          ensures d[j] == e[j]
        {
          assert rule.conditions[k] in rule.conditions;
          assert d[..i][j] == e[..i][j];
        }
        assert GetAll(form, answers, d, name) == GetAll(form, answers, e, name);
      }
    }
  }

  lemma SameVisit(form: Form, answers: Answers, d: seq<bool>, e: seq<bool>, i: nat)
    requires Forward(form) && |d| == |e| == |form.fields| && i < |form.fields| && d[..i] == e[..i]
    ensures Active(form, answers, d, i) == Active(form, answers, e, i)
    ensures Required(form, answers, d, i) == Required(form, answers, e, i)
  {
    var key := form.fields[i].key;
    forall rule | rule in form.rules
      ensures SwitchesOff(form, answers, d, rule, key) == SwitchesOff(form, answers, e, rule, key)
      ensures Demands(form, answers, d, rule, key) == Demands(form, answers, e, rule, key)
    {
      if rule.target == key { ReadsEarlier(form, answers, d, e, rule, i); }
    }
  }

  /** The rest of the pass makes the rest of the form agree. */
  lemma {:induction false} SweepSettles(form: Form, answers: Answers, m: Marks, i: nat)
    requires Forward(form) && Fits(form, m) && i <= |form.fields|
    ensures forall k | i <= k < |form.fields| :: Agrees(form, answers, Sweep(form, answers, m, i), k)
    decreases |form.fields| - i
  {
    if i < |form.fields| {
      var m1 := Visit(form, answers, m, i);
      var m' := Sweep(form, answers, m1, i + 1);
      SweepSettles(form, answers, m1, i + 1);
      assert m'.disabled[i] == m'.disabled[..i + 1][i] == m1.disabled[i];
      assert m'.required[i] == m'.required[..i + 1][i] == m1.required[i];
      assert m'.disabled[..i] == m'.disabled[..i + 1][..i] == m1.disabled[..i + 1][..i] == m.disabled[..i];
      SameVisit(form, answers, m.disabled, m'.disabled, i);
      assert m' == Sweep(form, answers, m, i) && Agrees(form, answers, m', i);
      forall k | i <= k < |form.fields| ensures Agrees(form, answers, m', k) {
        if k > i { assert Agrees(form, answers, Sweep(form, answers, m1, i + 1), k); }
      }
    }
  }

  lemma {:induction false} SettledAgreeUpTo(form: Form, answers: Answers, m: Marks, n: Marks, i: nat)
    requires Forward(form) && Settled(form, answers, m) && Settled(form, answers, n) && i <= |form.fields|
    ensures m.disabled[..i] == n.disabled[..i] && m.required[..i] == n.required[..i]
  {
    if i > 0 {
      SettledAgreeUpTo(form, answers, m, n, i - 1);
      assert Agrees(form, answers, m, i - 1) && Agrees(form, answers, n, i - 1);
      SameVisit(form, answers, m.disabled, n.disabled, i - 1);
      assert m.disabled[..i] == m.disabled[..i - 1] + [m.disabled[i - 1]];
      assert n.disabled[..i] == n.disabled[..i - 1] + [n.disabled[i - 1]];
      assert m.required[..i] == m.required[..i - 1] + [m.required[i - 1]];
      assert n.required[..i] == n.required[..i - 1] + [n.required[i - 1]];
    }
  }

  /** With rules that read backwards only, one pass from any marks reaches the one settled form. */
  lemma OnePassSettles(form: Form, answers: Answers, m: Marks, n: Marks)
    requires Forward(form) && Fits(form, m)
    ensures Settled(form, answers, Update(form, answers, m))
    ensures Settled(form, answers, n) ==> n == Update(form, answers, m)
  {
    var m' := Update(form, answers, m);
    SweepSettles(form, answers, m, 0);
    assert m' == Sweep(form, answers, m, 0);
    forall i | 0 <= i < |form.fields| ensures Agrees(form, answers, m', i) {}
    if Settled(form, answers, n) {
      SettledAgreeUpTo(form, answers, n, m', |form.fields|);
      assert n.disabled == n.disabled[..|form.fields|] && m'.disabled == m'.disabled[..|form.fields|];
      assert n.required == n.required[..|form.fields|] && m'.required == m'.required[..|form.fields|];
    }
  }

  /** For any rules at all, a pass changes nothing exactly when the form is already settled. */
  lemma {:induction false} SweepStillIffSettled(form: Form, answers: Answers, m: Marks, i: nat)
    requires Fits(form, m) && i <= |form.fields|
    ensures Sweep(form, answers, m, i) == m <==>
            forall k | i <= k < |form.fields| :: Agrees(form, answers, m, k)
    decreases |form.fields| - i
  {
    if i < |form.fields| {
      var m1 := Visit(form, answers, m, i);
      var m' := Sweep(form, answers, m1, i + 1);
      assert m'.disabled[i] == m'.disabled[..i + 1][i] == m1.disabled[i];
      assert m'.required[i] == m'.required[..i + 1][i] == m1.required[i];
      if m1 == m {
        SweepStillIffSettled(form, answers, m, i + 1);
      } else {
        assert m1.disabled[i] != m.disabled[i] || m1.required[i] != m.required[i];
        assert !Agrees(form, answers, m, i);
      }
    }
  }

  /** The marks after every event of an edit sequence, each event giving the answers then on the form. */
  function AfterEvents(form: Form, edits: seq<Answers>, m: Marks): (m': Marks)
    requires Fits(form, m)
    ensures Fits(form, m')
  {
    if edits == [] then m else Update(form, edits[|edits| - 1], AfterEvents(form, edits[..|edits| - 1], m))
  }

  /** After any edit sequence the form is settled, a second pass changes nothing, and only the last
      answers count: neither earlier answers nor the marks at the start can be told from the result. */
  lemma EveryEventSettles(form: Form, edits: seq<Answers>, m: Marks, other: Marks)
    requires Forward(form) && Fits(form, m) && Fits(form, other) && edits != []
    ensures var answers := edits[|edits| - 1];
            var m' := AfterEvents(form, edits, m);
            Settled(form, answers, m') && Update(form, answers, m') == m' && m' == Update(form, answers, other)
  {
    var answers := edits[|edits| - 1];
    var m' := AfterEvents(form, edits, m);
    OnePassSettles(form, answers, AfterEvents(form, edits[..|edits| - 1], m), m');
    OnePassSettles(form, answers, other, m');
    SweepStillIffSettled(form, answers, m', 0);
  }

  /** The order the rules are listed in, and listing one twice, make no difference to a pass. */
  lemma {:induction false} RuleOrderIrrelevant(form: Form, rules: seq<Rule>, answers: Answers, m: Marks, i: nat)
    requires Fits(form, m) && i <= |form.fields| && forall r :: r in rules <==> r in form.rules
    ensures Sweep(form.(rules := rules), answers, m, i) == Sweep(form, answers, m, i)
    decreases |form.fields| - i
  {
    if i < |form.fields| {
      var form' := form.(rules := rules);
      forall r ensures Match(form', answers, m.disabled, r) == Match(form, answers, m.disabled, r) {
        forall k | 0 <= k < |r.conditions|
          ensures ConditionMatches(form', answers, m.disabled, r, k)
               == ConditionMatches(form, answers, m.disabled, r, k)
        {
          var name := r.conditions[k].field;
          assert GetAll(form', answers, m.disabled, name) == GetAll(form, answers, m.disabled, name);
        }
      }
      var key := form.fields[i].key;
      forall r
        ensures SwitchesOff(form', answers, m.disabled, r, key) == SwitchesOff(form, answers, m.disabled, r, key)
        ensures Demands(form', answers, m.disabled, r, key) == Demands(form, answers, m.disabled, r, key) {}
      assert Visit(form', answers, m, i) == Visit(form, answers, m, i);
      RuleOrderIrrelevant(form, rules, answers, Visit(form, answers, m, i), i + 1);
    }
  }

  // ----------------------------------------------------------- why rules read backwards

  /** A rule that reads its own field: hide "a" when "a" is "x". */
  function SelfReading(number: string -> Num): Form {
    Form(0, [Rule("a", Hide, 0, false, false, [Condition("a", Equals, "x")], [])], [Field("a", false, false)],
         {"a"}, number)
  }

  /** Forward cannot be done without: this form has no settled state, and every pass flips it.  The server
      saves no such rule (src/forms/venture-forms-rules.c:84). */
  lemma SelfReadingNeverSettles(number: string -> Num, m: Marks)
    requires Fits(SelfReading(number), m)
    ensures !Forward(SelfReading(number))
    ensures !Settled(SelfReading(number), map["a" := ["x"]], m)
    ensures Update(SelfReading(number), map["a" := ["x"]], m).disabled != m.disabled
  {
    var form, answers := SelfReading(number), map["a" := ["x"]];
    var rule := form.rules[0];
    assert rule in form.rules && rule.conditions[0] in rule.conditions && form.fields[0].key == "a";
    assert GetAll(form, answers, m.disabled, "a") == if m.disabled[0] then [] else ["x"];
    assert "x" in ["x"] && Atom(number, "x", Equals, "x") && !Atom(number, "", Equals, "x");
    assert ConditionMatches(form, answers, m.disabled, rule, 0) == !m.disabled[0];
    assert Match(form, answers, m.disabled, rule) == !m.disabled[0];
    assert SwitchesOff(form, answers, m.disabled, rule, "a") == !m.disabled[0];
    assert Active(form, answers, m.disabled, 0) == m.disabled[0];
    var m1 := Visit(form, answers, m, 0);
    assert Sweep(form, answers, m1, 1) == m1;
    assert !Agrees(form, answers, m, 0);
  }
}
