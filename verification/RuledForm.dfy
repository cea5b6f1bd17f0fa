/**
  The form that `wireRules` of data/static/forms.js keeps: one entry a field in
  each of three arrays, overwritten in place by every input and change event.
 */
module RuledForm {
  import opened FormRules

  class Page {
    const form: Form
    const disabled: array<bool>
    const hidden: array<bool>
    const required: array<bool>
    var answers: Answers

    ghost predicate Valid()
      reads this
    {
      && disabled.Length == hidden.Length == required.Length == |form.fields|
      && disabled != hidden && hidden != required && required != disabled
    }

    ghost function Now(): Marks
      reads this, disabled, required
    {
      Marks(disabled[..], required[..])
    }

    /** The page as the server drew it, wired and brought up to date once. */
    constructor (form: Form, answers: Answers, drawn: Marks)
      requires Fits(form, drawn)
      ensures Valid() && this.form == form && this.answers == answers && hidden[..] == disabled[..]
      ensures fresh(disabled) && fresh(hidden) && fresh(required)
      ensures Now() == FormRules.Update(form, answers, drawn)
    {
      this.form := form;
      this.answers := answers;
      disabled := new bool[|form.fields|](i requires 0 <= i < |form.fields| => drawn.disabled[i]);
      hidden := new bool[|form.fields|];
      required := new bool[|form.fields|](i requires 0 <= i < |form.fields| => drawn.required[i]);
      new;
      assert disabled[..] == drawn.disabled && required[..] == drawn.required;
      Update();
    }

    /** What the rules say of field i as the form stands: the loop over `rules`. */
    method Consult(i: nat) returns (active: bool, needed: bool)
      requires Valid() && i < |form.fields|
      ensures active == Active(form, answers, disabled[..], i)
      ensures (active && needed && !form.fields[i].multipleChoice) == Required(form, answers, disabled[..], i)
    {
      var values := disabled[..];
      var key := form.fields[i].key;
      active, needed := true, form.fields[i].requiredBase;
      for j := 0 to |form.rules|
        invariant active == forall rule | rule in form.rules[..j] :: !SwitchesOff(form, answers, values, rule, key)
        invariant needed == (form.fields[i].requiredBase
                             || exists rule | rule in form.rules[..j] :: Demands(form, answers, values, rule, key))
      {
        var rule := form.rules[j];
        assert form.rules[..j + 1] == form.rules[..j] + [rule];
        if rule.target == key {
          var matched := Match(form, answers, values, rule);
          if rule.action.Show? && !matched { active := false; }
          if rule.action.Hide? && matched { active := false; }
          if rule.action.Require? && matched { needed := true; }
        }
        assert !active <== SwitchesOff(form, answers, values, rule, key);
        assert needed <== Demands(form, answers, values, rule, key);
      }
      assert form.rules[..|form.rules|] == form.rules;
    }

    /** One pass over the fields in page order. */
    method Update()
      requires Valid()
      modifies disabled, hidden, required
      ensures Now() == FormRules.Update(form, answers, old(Now()))
      ensures hidden[..] == disabled[..]
    {
      for i := 0 to |form.fields|
        invariant Sweep(form, answers, Now(), i) == FormRules.Update(form, answers, old(Now()))
        invariant forall k | 0 <= k < i :: hidden[..][k] == disabled[k]
      {
        Visit(i);
      }
    }

    /** One field of that. */
    method Visit(i: nat)
      requires Valid() && i < |form.fields|
      modifies disabled, hidden, required
      ensures Now() == FormRules.Visit(form, answers, old(Now()), i)
      ensures hidden[..] == old(hidden[..])[i := disabled[i]]
      ensures forall k | 0 <= k < |form.fields| && k != i :: disabled[k] == old(disabled[k])
    {
      ghost var before := Now();
      var active, needed := Consult(i);
      hidden[i] := !active;
      disabled[i] := !active;
      required[i] := active && needed && !form.fields[i].multipleChoice;
      assert disabled[..] == before.disabled[i := !active];
      assert required[..] == before.required[i := Required(form, answers, before.disabled, i)];
    }

    /** An input or change event: the answers are what the visitor left, and the form is settled. */
    method Edit(answers: Answers)
      requires Valid()
      modifies this`answers, disabled, hidden, required
      ensures Valid() && this.answers == answers && hidden[..] == disabled[..]
      ensures Now() == FormRules.Update(form, answers, old(Now()))
      ensures Forward(form) ==> Settled(form, answers, Now())
    {
      this.answers := answers;
      Update();
      if Forward(form) { OnePassSettles(form, answers, old(Now()), Now()); }
    }
  }
}
