/** The five rules of `validateForm`. Each rule looks at one field, the
    rules are independent of each other, and every rule is applied. */
module Validation {
  import opened JsStrings
  import opened Email

  /** The contact form's fields, in the order the rules run. */
  datatype Field = Name | EmailField | Service | Timeline | Message

  /** The raw values of the five controls, before any trimming. */
  datatype FormFields = FormFields(
    name: string, email: string, service: string, timeline: string, message: string)

  /** What `form.reset()` leaves in the controls. */
  const EmptyFields := FormFields("", "", "", "", "")

  /** The order in which the rules run. */
  const RuleOrder: seq<Field> := [Name, EmailField, Service, Timeline, Message]

  function Rank(f: Field): (k: nat)
    ensures k < |RuleOrder| && RuleOrder[k] == f
  {
    match f
    case Name => 0
    case EmailField => 1
    case Service => 2
    case Timeline => 3
    case Message => 4
  }

  /** The fixed texts of the annotations. */
  const NameErrorText := "Please enter a valid name"
  const EmailErrorText := "Please enter a valid email address"
  const ServiceErrorText := "Please select a service"
  const TimelineErrorText := "Please select a timeline"
  const MessageErrorText := "Message must be at least 10 characters"

  /** The fixed text of the annotation shown under a failing field. */
  function ErrorText(f: Field): string {
    match f
    case Name => NameErrorText
    case EmailField => EmailErrorText
    case Service => ServiceErrorText
    case Timeline => TimelineErrorText
    case Message => MessageErrorText
  }

  /** The single rules. Name, e-mail and message are trimmed first and
      measured in UTF-16 code units; the two selects are not trimmed, and
      an empty value is the "nothing chosen" option. */
  predicate NameFails(name: string) { Utf16Length(Trim(name)) < 2 }
  predicate EmailFails(email: string) { !IsValidEmail(Trim(email)) }
  predicate ServiceFails(service: string) { service == "" }
  predicate TimelineFails(timeline: string) { timeline == "" }
  predicate MessageFails(message: string) { Utf16Length(Trim(message)) < 10 }

  /** The verdict of each rule on one set of values. */
  datatype Verdicts = Verdicts(
    name: bool, email: bool, service: bool, timeline: bool, message: bool)

  /** Runs every rule; none is skipped because an earlier one failed. */
  function Check(v: FormFields): Verdicts {
    Verdicts(NameFails(v.name), EmailFails(v.email), ServiceFails(v.service),
             TimelineFails(v.timeline), MessageFails(v.message))
  }

  /** Whether the verdict for `f` is a failure. */
  predicate Fails(r: Verdicts, f: Field) {
    match f
    case Name => r.name
    case EmailField => r.email
    case Service => r.service
    case Timeline => r.timeline
    case Message => r.message
  }

  /** The conditions under which the form counts as valid, written out. */
  predicate AllRulesPass(v: FormFields) {
    && Utf16Length(Trim(v.name)) >= 2
    && IsValidEmail(Trim(v.email))
    && v.service != ""
    && v.timeline != ""
    && Utf16Length(Trim(v.message)) >= 10
  }

  /** `{f}` when `failing`, and nothing otherwise. */
  function BorderOf(failing: bool, f: Field): set<Field> {
    if failing then {f} else {}
  }

  /** The rules that reject the values. */
  function FailedRules(r: Verdicts): set<Field> {
    BorderOf(r.name, Name) + BorderOf(r.email, EmailField) + BorderOf(r.service, Service)
    + BorderOf(r.timeline, Timeline) + BorderOf(r.message, Message)
  }

  /** `[f]` when `failing`, and nothing otherwise. */
  function Opt(failing: bool, f: Field): seq<Field> {
    if failing then [f] else []
  }

  /** The fields of `fs` that are in `bad`, in the order of `fs`. */
  function Keep(bad: set<Field>, fs: seq<Field>): seq<Field> {
    if fs == [] then []
    else Opt(fs[0] in bad, fs[0]) + Keep(bad, fs[1..])
  }

  /** The fields that get an annotation, in the order the rules run. */
  function FailingFields(r: Verdicts): seq<Field> {
    Keep(FailedRules(r), RuleOrder)
  }

  /** One annotation per field of `fs`, each with its field's fixed text. */
  function Annotate(fs: seq<Field>): (a: seq<(Field, string)>)
    ensures |a| == |fs|
  {
    if fs == [] then [] else [(fs[0], ErrorText(fs[0]))] + Annotate(fs[1..])
  }

  /** The `k`-th annotation belongs to the `k`-th field. */
  lemma {:induction false} AnnotateAt(fs: seq<Field>, k: nat)
    requires k < |fs|
    ensures Annotate(fs)[k] == (fs[k], ErrorText(fs[k]))
  {
    if k > 0 {
      AnnotateAt(fs[1..], k - 1);
    } else if |fs| > 1 {
      AnnotateAt(fs[1..], 0);
    }
  }

  /** The annotations one validation leaves: one per failing field with its
      fixed text, in rule order. */
  function Annotations(r: Verdicts): seq<(Field, string)> {
    Annotate(FailingFields(r))
  }

  lemma FailedRulesExact(r: Verdicts)
    ensures forall f :: f in FailedRules(r) <==> Fails(r, f)
  {
  }

  lemma {:induction false} KeepMembers(bad: set<Field>, fs: seq<Field>)
    ensures forall f :: f in Keep(bad, fs) <==> f in fs && f in bad
  {
    if fs != [] {
      KeepMembers(bad, fs[1..]);
      assert fs == [fs[0]] + fs[1..];
    }
  }

  predicate StrictlyRanked(fs: seq<Field>) {
    forall i, j :: 0 <= i < j < |fs| ==> Rank(fs[i]) < Rank(fs[j])
  }

  lemma {:induction false} KeepRanked(bad: set<Field>, fs: seq<Field>)
    requires StrictlyRanked(fs)
    ensures StrictlyRanked(Keep(bad, fs))
  {
    if fs != [] {
      var tail := fs[1..];
      KeepRanked(bad, tail);
      KeepMembers(bad, tail);
      forall f | f in Keep(bad, tail) ensures Rank(fs[0]) < Rank(f) {
        var i :| 0 <= i < |tail| && tail[i] == f;
        assert fs[i + 1] == f;
      }
    }
  }

  /** Annotating one more field appends one annotation. */
  lemma {:induction false} AnnotateSnoc(fs: seq<Field>, f: Field)
    ensures Annotate(fs + [f]) == Annotate(fs) + [(f, ErrorText(f))]
  {
    if fs == [] {
      assert [] + [f] == [f];
      assert [f][1..] == [];
    } else {
      assert (fs + [f])[0] == fs[0];
      assert (fs + [f])[1..] == fs[1..] + [f];
      AnnotateSnoc(fs[1..], f);
      var a := [(fs[0], ErrorText(fs[0]))];
      assert a + (Annotate(fs[1..]) + [(f, ErrorText(f))]) == (a + Annotate(fs[1..])) + [(f, ErrorText(f))];
    }
  }

  /** What one rule of `validateForm` does to the annotations: appends the
      annotation of `f` when the rule fails. */
  function AddAnnotation(errs: seq<(Field, string)>, failing: bool, f: Field): seq<(Field, string)> {
    if failing then errs + [(f, ErrorText(f))] else errs
  }

  /** What one rule does to the red borders. */
  function AddBorder(red: set<Field>, failing: bool, f: Field): set<Field> {
    if failing then red + {f} else red
  }

  lemma AnnotateOpt(fs: seq<Field>, failing: bool, f: Field)
    ensures Annotate(fs + Opt(failing, f)) == AddAnnotation(Annotate(fs), failing, f)
  {
    if failing {
      AnnotateSnoc(fs, f);
    } else {
      assert fs + [] == fs;
    }
  }

  /** A field is annotated exactly when its rule fails. */
  lemma FailingFieldsExact(r: Verdicts)
    ensures forall f :: f in FailingFields(r) <==> Fails(r, f)
  {
    FailedRulesExact(r);
    KeepMembers(FailedRules(r), RuleOrder);
    forall f ensures f in RuleOrder {
      assert RuleOrder[Rank(f)] == f;
    }
  }

  /** The annotations follow the order the rules run, so no field is
      annotated twice. */
  lemma FailingFieldsInRuleOrder(r: Verdicts)
    ensures StrictlyRanked(FailingFields(r))
    ensures forall i, j :: 0 <= i < j < |FailingFields(r)| ==> FailingFields(r)[i] != FailingFields(r)[j]
  {
    assert StrictlyRanked(RuleOrder) by {
      forall i, j | 0 <= i < j < |RuleOrder| ensures Rank(RuleOrder[i]) < Rank(RuleOrder[j]) {
        assert Rank(RuleOrder[i]) == i && Rank(RuleOrder[j]) == j;
      }
    }
    KeepRanked(FailedRules(r), RuleOrder);
  }

  /** No field carries two annotations. */
  lemma AnnotationsDistinct(r: Verdicts)
    ensures forall i, j :: 0 <= i < j < |Annotations(r)| ==> Annotations(r)[i].0 != Annotations(r)[j].0
  {
    FailingFieldsInRuleOrder(r);
    var fs := FailingFields(r);
    forall i, j | 0 <= i < j < |Annotations(r)| ensures Annotations(r)[i].0 != Annotations(r)[j].0 {
      AnnotateAt(fs, i);
      AnnotateAt(fs, j);
    }
  }

  /** `validateForm` returns true exactly when the written-out conditions
      hold, which is exactly when no field is annotated. */
  lemma ValidIffNoFailures(v: FormFields)
    ensures AllRulesPass(v) <==> FailingFields(Check(v)) == []
  {
    var r := Check(v);
    FailingFieldsExact(r);
    assert AllRulesPass(v) <==> !r.name && !r.email && !r.service && !r.timeline && !r.message;
    if FailingFields(r) != [] {
      assert FailingFields(r)[0] in FailingFields(r);
    } else {
      assert !Fails(r, Name) && !Fails(r, EmailField) && !Fails(r, Service);
      assert !Fails(r, Timeline) && !Fails(r, Message);
    }
  }

  /** Each annotation is a failing field with that field's fixed text, and
      every failing field has one. */
  lemma AnnotationsExact(r: Verdicts)
    ensures forall f, m :: (f, m) in Annotations(r) <==> Fails(r, f) && m == ErrorText(f)
  {
    FailingFieldsExact(r);
    var fs := FailingFields(r);
    forall f, m ensures (f, m) in Annotations(r) <==> Fails(r, f) && m == ErrorText(f) {
      if (f, m) in Annotations(r) {
        var k :| 0 <= k < |fs| && Annotations(r)[k] == (f, m);
        AnnotateAt(fs, k);
        assert fs[k] in fs;
      }
      if Fails(r, f) && m == ErrorText(f) {
        var k :| 0 <= k < |fs| && fs[k] == f;
        AnnotateAt(fs, k);
        assert Annotations(r)[k] == (f, m);
      }
    }
  }

  lemma KeepCons(bad: set<Field>, f: Field, fs: seq<Field>)
    ensures Keep(bad, [f] + fs) == Opt(f in bad, f) + Keep(bad, fs)
  {
    assert ([f] + fs)[1..] == fs;
  }

  /** Filtering the rule order, spelled out field by field. */
  lemma KeepRuleOrder(bad: set<Field>)
    ensures Keep(bad, RuleOrder)
            == Opt(Name in bad, Name) + (Opt(EmailField in bad, EmailField) + (Opt(Service in bad, Service)
             + (Opt(Timeline in bad, Timeline) + Opt(Message in bad, Message))))
  {
    var m: seq<Field> := [Message];
    var t := [Timeline] + m;
    var s := [Service] + t;
    var e := [EmailField] + s;
    assert RuleOrder == [Name] + e;
    assert m == [Message] + [];
    KeepCons(bad, Message, []);
    assert Keep(bad, m) == Opt(Message in bad, Message);
    KeepCons(bad, Timeline, m);
    KeepCons(bad, Service, t);
    KeepCons(bad, EmailField, s);
    KeepCons(bad, Name, e);
  }

  /** The annotated fields, one rule after the other as `validateForm`
      runs them. */
  lemma FailingFieldsSpelledOut(r: Verdicts)
    ensures FailingFields(r)
            == Opt(r.name, Name) + (Opt(r.email, EmailField) + (Opt(r.service, Service)
             + (Opt(r.timeline, Timeline) + Opt(r.message, Message))))
  {
    FailedRulesExact(r);
    KeepRuleOrder(FailedRules(r));
  }

  /** The same, grouped as the rules append to the list one after the other. */
  lemma FailingFieldsInSteps(r: Verdicts)
    ensures FailingFields(r)
            == Opt(r.name, Name) + Opt(r.email, EmailField) + Opt(r.service, Service)
             + Opt(r.timeline, Timeline) + Opt(r.message, Message)
  {
    FailingFieldsSpelledOut(r);
    var a, b, c, d, e := Opt(r.name, Name), Opt(r.email, EmailField), Opt(r.service, Service),
                         Opt(r.timeline, Timeline), Opt(r.message, Message);
    assert a + (b + (c + (d + e))) == a + b + c + d + e;
  }

  /** A value without `@` always fails the e-mail rule. */
  lemma EmailWithoutAtFails(s: string)
    requires '@' !in s
    ensures EmailFails(s)
  {
  }

  lemma MixedExampleVerdicts(v: FormFields)
    requires v == FormFields("A", "bad", "", "Web", "short")
    ensures Check(v) == Verdicts(true, true, true, false, true)
  {
    TrimmedLengthOfPlain(v.name);
    TrimmedLengthOfPlain(v.message);
    assert '@' !in v.email;
    EmailWithoutAtFails(v.email);
  }

  /** One mixed example: the name is too short, the e-mail has no `@`, no
      service is chosen and the message is short, while a timeline is
      chosen (see `MixedExampleVerdicts`); exactly those four fields are
      annotated, in rule order. */
  lemma MixedExample(r: Verdicts)
    requires r == Verdicts(true, true, true, false, true)
    ensures FailingFields(r) == [Name, EmailField, Service, Message]
  {
    FailingFieldsSpelledOut(r);
    assert [Name] + ([EmailField] + ([Service] + ([] + [Message]))) == [Name, EmailField, Service, Message];
  }

  /** The mixed example on the field values themselves. */
  lemma MixedExampleFields(v: FormFields)
    requires v == FormFields("A", "bad", "", "Web", "short")
    ensures FailingFields(Check(v)) == [Name, EmailField, Service, Message]
  {
    MixedExampleVerdicts(v);
    MixedExample(Check(v));
  }

  /** The annotations of one validation are those the five rules append,
      one after the other, to an empty list. */
  lemma AnnotationsInSteps(r: Verdicts)
    ensures Annotations(r)
            == AddAnnotation(AddAnnotation(AddAnnotation(AddAnnotation(AddAnnotation(
                 [], r.name, Name), r.email, EmailField), r.service, Service),
                 r.timeline, Timeline), r.message, Message)
  {
    FailingFieldsInSteps(r);
    var f1 := Opt(r.name, Name);
    var f2 := f1 + Opt(r.email, EmailField);
    var f3 := f2 + Opt(r.service, Service);
    var f4 := f3 + Opt(r.timeline, Timeline);
    assert f1 == [] + Opt(r.name, Name);
    AnnotateOpt([], r.name, Name);
    AnnotateOpt(f1, r.email, EmailField);
    AnnotateOpt(f2, r.service, Service);
    AnnotateOpt(f3, r.timeline, Timeline);
    AnnotateOpt(f4, r.message, Message);
  }

  /** The red borders of one validation are those the five rules add, one
      after the other, to an empty set. */
  lemma FailedRulesInSteps(r: Verdicts)
    ensures FailedRules(r)
            == AddBorder(AddBorder(AddBorder(AddBorder(AddBorder(
                 {}, r.name, Name), r.email, EmailField), r.service, Service),
                 r.timeline, Timeline), r.message, Message)
  {
  }
}
