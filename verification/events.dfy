/**
 The user's side of src/app/GameReviews.tsx: the events the rendered
 component offers in a state, and runs of such events from the initial
 state. The inputs and the Save and Close buttons exist only while the form
 is shown, the "New review" button only while neither the form nor a detail
 view is, and each listed review carries its own Delete control.
 */
module Events {
  import opened Draft
  import opened ReviewList
  import opened App

  datatype Event =
    | Typed(field: Field, text: string)
    | SavePressed
    | ClosePressed
    | NewPressed
    | ReviewClicked(entry: Entry)
    | DeletePressed(entry: Entry)

  /** The control that raises `ev` is rendered in `s`. A review click is
      offered for a listed review, as its closure would be; the component
      never wires that closure to an element, so no rendered control raises it. */
  predicate Enabled(s: State, ev: Event)
  {
    match ev
    case Typed(_, _) => s.showForm
    case SavePressed => s.showForm
    case ClosePressed => s.showForm
    case NewPressed => CanOpen(s)
    case ReviewClicked(e) => e in s.reviews
    case DeletePressed(e) => e in s.reviews
  }

  /** The handler `ev` triggers. */
  function Step(s: State, ev: Event): State
    requires Enabled(s, ev)
  {
    match ev
    case Typed(f, text) => InputChange(s, f, text)
    case SavePressed => Save(s)
    case ClosePressed => Close(s)
    case NewPressed => Open(s)
    case ReviewClicked(e) => ReviewClick(s, e)
    case DeletePressed(e) => Delete(s, e)
  }

  /** Every event of `evs` is offered in the state it meets. */
  predicate Valid(s: State, evs: seq<Event>)
    decreases |evs|
  {
    |evs| == 0 || (Enabled(s, evs[0]) && Valid(Step(s, evs[0]), evs[1..]))
  }

  /** The state after the events `evs`, one handler at a time. */
  function Run(s: State, evs: seq<Event>): State
    requires Valid(s, evs)
    decreases |evs|
  {
    if |evs| == 0 then s else Run(Step(s, evs[0]), evs[1..])
  }

  /** One event keeps the invariant. */
  lemma StepInv(s: State, ev: Event)
    requires Inv(s) && Enabled(s, ev)
    ensures Inv(Step(s, ev))
  {
    match ev
    case Typed(f, text) => InputChangeInv(s, f, text);
    case SavePressed => SaveInv(s);
    case ClosePressed => CloseInv(s);
    case NewPressed => OpenInv(s);
    case ReviewClicked(e) => ReviewClickInv(s, e);
    case DeletePressed(e) => DeleteInv(s, e);
  }

  /** Any run keeps the invariant. */
  lemma {:induction false} RunInv(s: State, evs: seq<Event>)
    requires Inv(s) && Valid(s, evs)
    ensures Inv(Run(s, evs))
    decreases |evs|
  {
    if |evs| > 0 {
      StepInv(s, evs[0]);
      RunInv(Step(s, evs[0]), evs[1..]);
    }
  }

  /** In every state the component can reach, the form and a detail view are
      never shown together, the list is in insertion order, and exactly one of
      the form, the detail view and the "New review" button is rendered. */
  lemma Reachable(evs: seq<Event>)
    requires Valid(Init(), evs)
    ensures Inv(Run(Init(), evs))
    ensures FormVisible(Run(Init(), evs)) ==> !DetailVisible(Run(Init(), evs))
    ensures Ordered(Run(Init(), evs).reviews)
    ensures CanOpen(Run(Init(), evs)) <==> !FormVisible(Run(Init(), evs)) && !DetailVisible(Run(Init(), evs))
  {
    RunInv(Init(), evs);
  }

  /** Running an offered event and then `rest` is a run. */
  lemma RunStep(s: State, ev: Event, rest: seq<Event>)
    requires Enabled(s, ev) && Valid(Step(s, ev), rest)
    ensures Valid(s, [ev] + rest)
    ensures Run(s, [ev] + rest) == Run(Step(s, ev), rest)
  {
  }

  /** Saving a draft named "N", described "D" and scored "5" stores exactly
      that review and resets the draft. The score is stored as the text typed. */
  lemma SaveOneScenario()
    ensures var evs := [NewPressed, Typed(Name, "N"), Typed(Desc, "D"), Typed(Score, "5"), SavePressed];
            Valid(Init(), evs)
            && Run(Init(), evs).reviews == [Entry(0, Review(Str("N"), Str("D"), Str("5")))]
            && Run(Init(), evs).draft == Empty()
            && !Run(Init(), evs).showForm
  {
    var s0 := Init();
    var s1 := Open(s0);
    var s2 := InputChange(s1, Name, "N");
    var s3 := InputChange(s2, Desc, "D");
    var s4 := InputChange(s3, Score, "5");
    var s5 := Save(s4);
    var r5: seq<Event> := [];
    assert Valid(s5, r5) && Run(s5, r5) == s5;
    RunStep(s4, SavePressed, r5);
    var r4 := [SavePressed] + r5;
    RunStep(s3, Typed(Score, "5"), r4);
    var r3 := [Typed(Score, "5")] + r4;
    RunStep(s2, Typed(Desc, "D"), r3);
    var r2 := [Typed(Desc, "D")] + r3;
    RunStep(s1, Typed(Name, "N"), r2);
    var r1 := [Typed(Name, "N")] + r2;
    RunStep(s0, NewPressed, r1);
    assert [NewPressed] + r1 == [NewPressed, Typed(Name, "N"), Typed(Desc, "D"), Typed(Score, "5"), SavePressed];
  }

  /** A run followed by a run from where it ends is a run. */
  lemma {:induction false} RunAppend(s: State, a: seq<Event>, b: seq<Event>)
    requires Valid(s, a) && Valid(Run(s, a), b)
    ensures Valid(s, a + b)
    ensures Run(s, a + b) == Run(Run(s, a), b)
    decreases |a|
  {
    if |a| == 0 {
      assert a + b == b;
    } else {
      assert (a + b)[0] == a[0] && (a + b)[1..] == a[1..] + b;
      RunAppend(Step(s, a[0]), a[1..], b);
    }
  }

  /** The two reviews "A" and "B", saved one after the other. */
  function SavedA(): Entry
  {
    Entry(0, Review(Str("A"), Str(""), Num(0)))
  }

  function SavedB(): Entry
  {
    Entry(1, Review(Str("B"), Str(""), Num(0)))
  }

  /** Saving "A" and then "B" lists them in that order. */
  lemma SaveTwoScenario()
    ensures var evs := [NewPressed, Typed(Name, "A"), SavePressed,
                        NewPressed, Typed(Name, "B"), SavePressed];
            Valid(Init(), evs)
            && Run(Init(), evs) == State([SavedA(), SavedB()], Empty(), false, None, 2)
  {
    var s0 := Init();
    var s1 := Open(s0);
    var s2 := InputChange(s1, Name, "A");
    var s3 := Save(s2);
    var s4 := Open(s3);
    var s5 := InputChange(s4, Name, "B");
    var s6 := Save(s5);
    assert s6 == State([SavedA(), SavedB()], Empty(), false, None, 2);
    var r6: seq<Event> := [];
    assert Valid(s6, r6) && Run(s6, r6) == s6;
    RunStep(s5, SavePressed, r6);
    var r5 := [SavePressed] + r6;
    RunStep(s4, Typed(Name, "B"), r5);
    var r4 := [Typed(Name, "B")] + r5;
    RunStep(s3, NewPressed, r4);
    var r3 := [NewPressed] + r4;
    RunStep(s2, SavePressed, r3);
    var r2 := [SavePressed] + r3;
    RunStep(s1, Typed(Name, "A"), r2);
    var r1 := [Typed(Name, "A")] + r2;
    RunStep(s0, NewPressed, r1);
    assert [NewPressed] + r1 == [NewPressed, Typed(Name, "A"), SavePressed,
                                 NewPressed, Typed(Name, "B"), SavePressed];
  }

  /** Save A, save B, delete A: the list is [B]. */
  lemma SaveSaveDeleteScenario()
    ensures var evs := [NewPressed, Typed(Name, "A"), SavePressed,
                        NewPressed, Typed(Name, "B"), SavePressed, DeletePressed(SavedA())];
            Valid(Init(), evs) && Run(Init(), evs).reviews == [SavedB()]
  {
    var saves := [NewPressed, Typed(Name, "A"), SavePressed,
                  NewPressed, Typed(Name, "B"), SavePressed];
    SaveTwoScenario();
    var s6 := Run(Init(), saves);
    assert Inv(s6);
    DeleteAt(s6, 0);
    assert Valid(Delete(s6, SavedA()), []);
    RunStep(s6, DeletePressed(SavedA()), []);
    assert [DeletePressed(SavedA())] + [] == [DeletePressed(SavedA())];
    RunAppend(Init(), saves, [DeletePressed(SavedA())]);
    assert saves + [DeletePressed(SavedA())] == [NewPressed, Typed(Name, "A"), SavePressed,
                        NewPressed, Typed(Name, "B"), SavePressed, DeletePressed(SavedA())];
  }
}
