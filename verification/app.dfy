/**
 The view-state machine of the `App` component of src/app/GameReviews.tsx.
 The component keeps four pieces of state: the ordered list of saved
 reviews, the draft bound to the form, the flag that shows the form, and
 the review shown in the detail view, if any. Each event handler is one
 atomic, pure transition of that state.
 */
module App {
  import opened Draft
  import opened ReviewList

  datatype Option<T> = None | Some(value: T)

  /** `reviews`, `newReview` (here `draft`), `showReview` (here `showForm`) and
      `selectedReview` (here `selected`). `nextId` is the identity the next
      saved object receives; it stands for object allocation. */
  datatype State = State(
    reviews: seq<Entry>,
    draft: Review,
    showForm: bool,
    selected: Option<Entry>,
    nextId: nat)

  /** What every state the handlers reach satisfies: the form and the detail
      view are never both open, the list is in insertion order, and every
      stored identity was handed out before `nextId`. */
  predicate Inv(s: State)
  {
    && (s.showForm ==> s.selected.None?)
    && Ordered(s.reviews)
    && IdsBelow(s.reviews, s.nextId)
  }

  /** The form block is rendered. */
  predicate FormVisible(s: State)
  {
    s.showForm
  }

  /** The detail block of the selected review is rendered. */
  predicate DetailVisible(s: State)
  {
    s.selected.Some?
  }

  /** The "New review" button is rendered: the form is hidden and nothing is
      selected. It is the only control that opens the form. */
  predicate CanOpen(s: State)
  {
    !s.showForm && s.selected.None?
  }

  /** The panel beside the list: the button, the form, or one review's detail. */
  datatype Panel = Listing | Editing | Viewing(entry: Entry)

  /** The panel a state shows. In a state that satisfies the invariant exactly
      one of the three blocks is rendered, and this is it. */
  function PanelOf(s: State): (p: Panel)
    requires Inv(s)
    ensures p == Editing <==> FormVisible(s)
    ensures p.Viewing? <==> DetailVisible(s)
    ensures p == Listing <==> CanOpen(s)
    ensures p.Viewing? ==> s.selected == Some(p.entry)
  {
    if s.showForm then Editing
    else
      match s.selected
      case Some(e) => Viewing(e)
      case None => Listing
  }

  /** The state on mount: no reviews, the empty draft, the form hidden and
      nothing selected. */
  function Init(): (s: State)
    ensures s.reviews == []
    ensures forall f :: Get(s.draft, f) == if f == Score then Num(0) else Str("")
    ensures !s.showForm && s.selected == None
    ensures Inv(s) && PanelOf(s) == Listing
  {
    State([], Empty(), false, None, 0)
  }

  /** `handleInputChange`: the input `f` reports `text`, which overwrites that
      one field of the draft; nothing else changes. */
  function InputChange(s: State, f: Field, text: string): (r: State)
    ensures Get(r.draft, f) == Str(text)
    ensures forall g :: g != f ==> Get(r.draft, g) == Get(s.draft, g)
    ensures r == s.(draft := r.draft)
  {
    s.(draft := Set(s.draft, f, text))
  }

  /** `handleSave`: the draft, as a fresh object, is appended to the list; the
      draft is reset and the form hidden. The selection is not touched. */
  function Save(s: State): (r: State)
    ensures |r.reviews| == |s.reviews| + 1
    ensures r.reviews[..|s.reviews|] == s.reviews
    ensures r.reviews[|s.reviews|].review == s.draft
    ensures r.draft == Empty() && !r.showForm && r.selected == s.selected
  {
    s.(reviews := s.reviews + [Entry(s.nextId, s.draft)],
       draft := Empty(),
       showForm := false,
       nextId := s.nextId + 1)
  }

  /** The inline Close handler: hides the form. Unlike a cancel it keeps the
      draft, so reopening the form shows what was typed. */
  function Close(s: State): (r: State)
    ensures !r.showForm
    ensures r.reviews == s.reviews && r.draft == s.draft && r.selected == s.selected
    ensures r.nextId == s.nextId
  {
    s.(showForm := false)
  }

  /** The inline handler of the "New review" button, which is only rendered
      when `CanOpen` holds: shows the form. */
  function Open(s: State): (r: State)
    requires CanOpen(s)
    ensures r.showForm && r.selected == None
    ensures r.reviews == s.reviews && r.draft == s.draft && r.nextId == s.nextId
  {
    s.(showForm := true)
  }

  /** A click counts as a click on the selected review when the two have the
      same name, whether or not they are the same object. */
  predicate SameName(sel: Option<Entry>, e: Entry)
  {
    sel.Some? && sel.value.review.name == e.review.name
  }

  /** `handleReviewClick`: clicking the selected review (by name) clears the
      selection and leaves the form flag alone; clicking any other selects it
      and hides the form. `GameReview` never attaches its `onClick` prop to an
      element, so the rendered component cannot reach this handler. */
  function ReviewClick(s: State, e: Entry): (r: State)
    ensures SameName(s.selected, e) ==> r.selected == None && r.showForm == s.showForm
    ensures !SameName(s.selected, e) ==> r.selected == Some(e) && !r.showForm
    ensures r.reviews == s.reviews && r.draft == s.draft && r.nextId == s.nextId
  {
    if SameName(s.selected, e) then s.(selected := None)
    else s.(selected := Some(e), showForm := false)
  }

  /** `handleDelete`: removes every entry that is the target object. The draft,
      the form flag and the selection are untouched, even when the target is
      the selected review. */
  function Delete(s: State, target: Entry): (r: State)
    ensures forall e :: e in r.reviews <==> e in s.reviews && e.id != target.id
    ensures r.draft == s.draft && r.showForm == s.showForm && r.selected == s.selected
    ensures r.nextId == s.nextId
  {
    s.(reviews := Remove(s.reviews, target.id))
  }

  // Each handler preserves the invariant.

  lemma InputChangeInv(s: State, f: Field, text: string)
    requires Inv(s)
    ensures Inv(InputChange(s, f, text))
  {
  }

  /** Saving keeps the invariant, and the saved object is new: no entry
      already in the list has its identity. */
  lemma SaveInv(s: State)
    requires Inv(s)
    ensures Inv(Save(s))
    ensures !HasId(s.reviews, Save(s).reviews[|s.reviews|].id)
  {
  }

  lemma CloseInv(s: State)
    requires Inv(s)
    ensures Inv(Close(s))
  {
  }

  lemma OpenInv(s: State)
    requires Inv(s) && CanOpen(s)
    ensures Inv(Open(s))
  {
  }

  lemma ReviewClickInv(s: State, e: Entry)
    requires Inv(s)
    ensures Inv(ReviewClick(s, e))
  {
  }

  lemma DeleteInv(s: State, target: Entry)
    requires Inv(s)
    ensures Inv(Delete(s, target))
  {
    RemoveOrdered(s.reviews, target.id);
  }

  // Save

  /** The text typed into an input is what the saved review holds in that field. */
  lemma TypedTextIsSaved(s: State, f: Field, text: string)
    ensures Get(Save(InputChange(s, f, text)).reviews[|s.reviews|].review, f) == Str(text)
  {
  }

  // Delete

  /** Deleting a listed review removes exactly that one entry and keeps the
      order of the rest. */
  lemma DeleteAt(s: State, i: nat)
    requires Inv(s) && i < |s.reviews|
    ensures Delete(s, s.reviews[i]).reviews == s.reviews[..i] + s.reviews[i + 1..]
    ensures |Delete(s, s.reviews[i]).reviews| == |s.reviews| - 1
  {
    RemoveAt(s.reviews, i);
  }

  /** Deleting a review that is not in the list changes nothing. */
  lemma DeleteAbsent(s: State, target: Entry)
    requires !HasId(s.reviews, target.id)
    ensures Delete(s, target) == s
  {
    RemoveAbsent(s.reviews, target.id);
  }

  /** Deleting the selected review leaves it selected although it is no longer
      in the list: the detail view keeps showing it. */
  lemma DeleteSelectedStaysSelected(s: State, e: Entry)
    requires Inv(s) && s.selected == Some(e)
    ensures e !in Delete(s, e).reviews
    ensures Inv(Delete(s, e)) && PanelOf(Delete(s, e)) == Viewing(e)
  {
    DeleteInv(s, e);
  }

  // Open and Close

  /** Closing the form and opening it again restores the state, draft included. */
  lemma CloseThenOpen(s: State)
    requires Inv(s) && s.showForm
    ensures CanOpen(Close(s))
    ensures Open(Close(s)) == s
  {
  }

  /** Opening the form and closing it again restores the state. */
  lemma OpenThenClose(s: State)
    requires CanOpen(s)
    ensures Close(Open(s)) == s
  {
  }

  // Review click

  /** From the plain list view, clicking a review twice returns to that state. */
  lemma ClickTwice(s: State, e: Entry)
    requires CanOpen(s)
    ensures ReviewClick(ReviewClick(s, e), e) == s
  {
  }

  /** A different review that merely shares the selected review's name toggles
      the selection off instead of being selected. */
  lemma ClickNamesake(s: State, a: Entry, b: Entry)
    requires s.selected == Some(a) && a.review.name == b.review.name
    ensures ReviewClick(s, b).selected == None
    ensures ReviewClick(ReviewClick(s, b), b).selected == Some(b)
  {
  }

  // The panel beside the list

  /** The panel changes as the transitions of the view promise: the button
      opens the form, saving or closing returns to the list, a click shows the
      clicked review unless it toggles the selected one off, and edits and
      deletions keep the panel. */
  lemma PanelTransitions(s: State, f: Field, text: string, e: Entry)
    requires Inv(s)
    ensures Inv(Save(s)) && Inv(Close(s)) && Inv(ReviewClick(s, e))
    ensures Inv(Delete(s, e)) && Inv(InputChange(s, f, text))
    ensures PanelOf(s) == Listing ==> Inv(Open(s)) && PanelOf(Open(s)) == Editing
    ensures PanelOf(s) == Editing ==> PanelOf(Save(s)) == Listing && PanelOf(Close(s)) == Listing
    ensures PanelOf(ReviewClick(s, e)) == if SameName(s.selected, e) then Listing else Viewing(e)
    ensures PanelOf(Delete(s, e)) == PanelOf(s)
    ensures PanelOf(InputChange(s, f, text)) == PanelOf(s)
  {
    SaveInv(s);
    DeleteInv(s, e);
  }
}
