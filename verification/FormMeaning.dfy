/**
  What the conditional rules of data/static/forms.js mean for a visitor: when a
  condition is met, when a rule matches, and which fields a pass leaves enabled.
 */
module FormMeaning {
  import opened Text
  import opened FormRules

  // ------------------------------------------------------------ one condition

  /** The answers under a name are those given, unless its field is disabled. */
  lemma DisabledAnswersNothing(form: Form, answers: Answers, disabled: seq<bool>, name: string, i: nat)
    requires |disabled| == |form.fields| && i < |form.fields| && form.fields[i].key == name
    requires forall j | 0 <= j < |form.fields| && j != i :: form.fields[j].key != name
    ensures disabled[i] ==> GetAll(form, answers, disabled, name) == []
    ensures !disabled[i] ==> GetAll(form, answers, disabled, name) == if name in answers then answers[name] else []
  {
  }

  lemma OthersAnswer(form: Form, answers: Answers, disabled: seq<bool>, name: string)
    requires |disabled| == |form.fields| && forall j | 0 <= j < |form.fields| :: form.fields[j].key != name
    ensures GetAll(form, answers, disabled, name) == if name in answers then answers[name] else []
  {
  }

  /** An answer that reads as a number: not blank, no space at its end, and finite. */
  predicate IsFigure(number: string -> Num, x: string) {
    x != "" && !IsSpace(x[|x| - 1]) && number(x).Finite?
  }

  /** One answer against each operator. */
  lemma AnswerMeets(number: string -> Num, x: string, wanted: string)
    ensures Atom(number, x, Equals, wanted) <==> x == wanted
    ensures Atom(number, x, NotEquals, wanted) <==> x == wanted
    ensures Atom(number, x, Contains, wanted) <==> exists i: nat :: OccursAt(x, wanted, i)
    ensures Atom(number, x, AnyOf, wanted) <==> exists i: nat :: LineAt(wanted, x, i)
    ensures Atom(number, x, GreaterThan, wanted) <==>
              && IsFigure(number, x)
              && (number(wanted) == NegativeInfinity
                  || (number(wanted).Finite? && number(x).value > number(wanted).value))
    ensures Atom(number, x, LessThan, wanted) <==>
              && IsFigure(number, x)
              && (number(wanted) == PositiveInfinity
                  || (number(wanted).Finite? && number(x).value < number(wanted).value))
    ensures !Atom(number, x, Unknown, wanted)
  {
    FoundWhereItOccurs(x, wanted);
    SplitIsLines(wanted, x);
  }

  /** A condition on a field of the page: is_empty when every answer is blank; else some answer must do, a
      missing one counting as blank; and not_equals when none does.  One on an earlier page was settled there. */
  lemma ConditionMeans(form: Form, answers: Answers, disabled: seq<bool>, rule: Rule, k: nat)
    requires |disabled| == |form.fields| && k < |rule.conditions|
    ensures var c := rule.conditions[k];
            var given := GetAll(form, answers, disabled, c.field);
            ConditionMatches(form, answers, disabled, rule, k) <==>
              if c.field !in form.named then k < |rule.conditionMatches| && rule.conditionMatches[k]
              else if c.operator == IsEmpty then !exists x | x in given :: x != ""
              else if c.operator == NotEquals then c.value !in given && (given == [] ==> c.value != "")
              else if given == [] then Atom(form.number, "", c.operator, c.value)
              else exists x | x in given :: Atom(form.number, x, c.operator, c.value)
  {
    var c := rule.conditions[k];
    var given := GetAll(form, answers, disabled, c.field);
    var offered := if given == [] then [""] else given;
    SomeAnswer(form.number, offered, c);
    assert "" in [""];
  }

  lemma SomeAnswer(number: string -> Num, offered: seq<string>, c: Condition)
    ensures c.operator == NotEquals ==>
              ((exists x | x in offered :: Atom(number, x, c.operator, c.value)) <==> c.value in offered)
    ensures offered == [""] ==>
              ((exists x | x in offered :: Atom(number, x, c.operator, c.value)) <==>
               Atom(number, "", c.operator, c.value))
  {
    if c.operator == NotEquals && c.value in offered { assert Atom(number, c.value, NotEquals, c.value); }
    if offered == [""] { assert "" in offered; }
  }

  // ------------------------------------------------------------------- a rule

  /** How many of a rule's first n conditions are met. */
  function Met(form: Form, answers: Answers, disabled: seq<bool>, rule: Rule, n: nat): nat
    requires |disabled| == |form.fields| && n <= |rule.conditions|
  {
    if n == 0 then 0
    else Met(form, answers, disabled, rule, n - 1)
         + if ConditionMatches(form, answers, disabled, rule, n - 1) then 1 else 0
  }

  lemma {:induction false} MetBounds(form: Form, answers: Answers, disabled: seq<bool>, rule: Rule, n: nat)
    requires |disabled| == |form.fields| && n <= |rule.conditions|
    ensures Met(form, answers, disabled, rule, n) <= n
    ensures Met(form, answers, disabled, rule, n) == n <==>
              forall k | 0 <= k < n :: ConditionMatches(form, answers, disabled, rule, k)
    ensures Met(form, answers, disabled, rule, n) == 0 <==>
              forall k | 0 <= k < n :: !ConditionMatches(form, answers, disabled, rule, k)
  {
    if n > 0 { MetBounds(form, answers, disabled, rule, n - 1); }
  }

  /** A rule of this page matches when enough of its conditions are met: one for an any-rule, which so never
      matches without conditions, and all for an all-rule, which then always does. */
  lemma RuleMeans(form: Form, answers: Answers, disabled: seq<bool>, rule: Rule)
    requires |disabled| == |form.fields|
    ensures rule.fromPage != form.page ==> Match(form, answers, disabled, rule) == rule.matched
    ensures rule.fromPage == form.page ==>
              var met := Met(form, answers, disabled, rule, |rule.conditions|);
              Match(form, answers, disabled, rule) <==> if rule.any then met > 0 else met == |rule.conditions|
  {
    MetBounds(form, answers, disabled, rule, |rule.conditions|);
  }

  /** One more condition: an any-rule then matches when it did before or the condition is met, an all-rule when
      it did and the condition is. */
  lemma OneMoreCondition(form: Form, answers: Answers, disabled: seq<bool>, rule: Rule)
    requires |disabled| == |form.fields| && rule.fromPage == form.page && rule.conditions != []
    ensures var k := |rule.conditions| - 1;
            var before := rule.(conditions := rule.conditions[..k]);
            var alone := rule.(
              conditions := [rule.conditions[k]],
              conditionMatches := if k < |rule.conditionMatches| then [rule.conditionMatches[k]] else []);
            var b, a := Match(form, answers, disabled, before), Match(form, answers, disabled, alone);
            Match(form, answers, disabled, rule) <==> if rule.any then b || a else b && a
  {
    var k := |rule.conditions| - 1;
    var before := rule.(conditions := rule.conditions[..k]);
    var alone := rule.(
      conditions := [rule.conditions[k]],
      conditionMatches := if k < |rule.conditionMatches| then [rule.conditionMatches[k]] else []);
    forall j | 0 <= j < k
      ensures ConditionMatches(form, answers, disabled, before, j) == ConditionMatches(form, answers, disabled, rule, j)
    {
      SameCondition(form, answers, disabled, before, j, rule, j);
    }
    SameCondition(form, answers, disabled, alone, 0, rule, k);
  }

  lemma SameCondition(form: Form, answers: Answers, disabled: seq<bool>, a: Rule, i: nat, b: Rule, j: nat)
    requires |disabled| == |form.fields| && i < |a.conditions| && j < |b.conditions|
    requires a.conditions[i] == b.conditions[j]
    requires (i < |a.conditionMatches| && a.conditionMatches[i]) == (j < |b.conditionMatches| && b.conditionMatches[j])
    ensures ConditionMatches(form, answers, disabled, a, i) == ConditionMatches(form, answers, disabled, b, j)
  {
  }

  // ------------------------------------------------------------------- a pass

  /** Whether enough of the rule's conditions are met. */
  ghost predicate Holds(form: Form, answers: Answers, disabled: seq<bool>, rule: Rule)
    requires |disabled| == |form.fields|
  {
    if rule.fromPage != form.page then rule.matched
    else
      var met := Met(form, answers, disabled, rule, |rule.conditions|);
      if rule.any then met > 0 else met == |rule.conditions|
  }

  /** The rule is of that kind, for that field, and holds or not as told. */
  ghost predicate Says(form: Form, answers: Answers, disabled: seq<bool>, rule: Rule, key: string,
                       action: Action, holds: bool)
    requires |disabled| == |form.fields|
  {
    rule.target == key && rule.action == action && Holds(form, answers, disabled, rule) == holds
  }

  /** After a pass a field is disabled exactly when a show-rule for it does not hold or a hide-rule does, and
      required exactly when it is enabled, no multiple choice, and required by itself or by a rule that holds. */
  lemma PassMeans(form: Form, answers: Answers, m: Marks, i: nat)
    requires Forward(form) && Fits(form, m) && i < |form.fields|
    ensures var m', key := Update(form, answers, m), form.fields[i].key;
            m'.disabled[i] <==>
              exists rule | rule in form.rules ::
                || Says(form, answers, m'.disabled, rule, key, Show, false)
                || Says(form, answers, m'.disabled, rule, key, Hide, true)
    ensures var m', field := Update(form, answers, m), form.fields[i];
            m'.required[i] <==>
              && !m'.disabled[i] && !field.multipleChoice
              && (field.requiredBase
                  || exists rule | rule in form.rules ::
                       Says(form, answers, m'.disabled, rule, field.key, Require, true))
  {
    var m' := Update(form, answers, m);
    OnePassSettles(form, answers, m, m');
    assert Agrees(form, answers, m', i);
    var key := form.fields[i].key;
    forall rule
      ensures SwitchesOff(form, answers, m'.disabled, rule, key) <==>
              || Says(form, answers, m'.disabled, rule, key, Show, false)
              || Says(form, answers, m'.disabled, rule, key, Hide, true)
      ensures Demands(form, answers, m'.disabled, rule, key) <==>
              Says(form, answers, m'.disabled, rule, key, Require, true)
    {
      RuleMeans(form, answers, m'.disabled, rule);
    }
  }
}
