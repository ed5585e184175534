# Game reviews: the view-state machine of `App`

This project models the `App` component of `src/app/GameReviews.tsx`. The
component is a small form-and-list widget for game reviews. Each review has a
name, a description and a score. The state has four parts:

- the ordered list of saved reviews (`reviews`);
- the draft bound to the form (`newReview`);
- the flag that shows the form (`showReview`);
- the review shown in the detail view, if any (`selectedReview`).

The state changes through these handlers: the input-change handler, Save, the
inline Close handler, the inline handler of the "New review" button, the review
click handler and Delete. Each one is modelled as an atomic, pure function on an
immutable `State` record.

- `draft.dfy` (module `Draft`): field values, the three form fields, the review
  record, the empty draft and the single-field edit.
- `review_list.dfy` (module `ReviewList`): saved entries and removal by identity.
  JavaScript deletes by reference (`!==`), and every save appends a newly
  allocated object. So each saved entry carries an `id` that stands for its
  object identity. `State.nextId` stands for allocation.
- `app.dfy` (module `App`): the state, the initial state, the handlers, the
  invariant, the panel the state shows, and the lemmas about them.
- `events.dfy` (module `Events`): the events the rendered component offers in a
  state (its render guards), runs of events, and the invariant of every
  reachable state.

The invariant (`App.Inv`) has three parts:

- the form and a detail view are never open together;
- the ids increase along the list, which means the list is in insertion order;
- every id is below `nextId`.

The first part rests on the render guard of the "New review" button: it is the
only control that sets the form flag. It is rendered only when the form is
hidden and nothing is selected. `App.Open` takes that guard as its precondition.

The model keeps these behaviours of the code, including the ones a reader
might not expect:

- Close does not reset the draft.
- Delete compares by object identity, not by value.
- A click toggles the selection off when the clicked review has the selected
  review's name, even if it is a different review.
- Deleting the selected review leaves it selected and shown.
- `GameReview` never attaches its `onClick` prop to an element. So the rendered
  component cannot reach `handleReviewClick`. It is modelled anyway
  (`App.ReviewClick`). `Events.Enabled` offers it for every listed review, which
  is what the closure passed at line 87 would do. The invariant is proved for
  this larger set of runs.

## Model

| member | source | states |
|---|---|---|
| Draft.Empty | src/app/GameReviews.tsx:40-44 | the empty draft has name "", description "" and score the number 0 |
| Draft.Set | src/app/GameReviews.tsx:48-53 | an edit writes the reported text into the named field and leaves the other two fields unchanged |
| Draft.SetLastWins | src/app/GameReviews.tsx:48-53 | two edits of the same input keep only the last text |
| Draft.SetCommutes | src/app/GameReviews.tsx:48-53 | edits of two different inputs give the same draft in either order |
| Draft.SetSameText | src/app/GameReviews.tsx:48-53 | reporting the text a field already holds leaves the draft unchanged |
| ReviewList.Remove | src/app/GameReviews.tsx:72-74 | the filtered list holds exactly the entries of the old list that are not the target object, and is no longer than the old list |
| ReviewList.RemoveAppend | src/app/GameReviews.tsx:73 | filtering distributes over concatenation, so removal never reorders the survivors |
| ReviewList.RemoveAbsent | src/app/GameReviews.tsx:73 | removing an object that is not in the list leaves the list unchanged |
| ReviewList.RemoveOrdered | src/app/GameReviews.tsx:73 | removal keeps the list in insertion order |
| ReviewList.RemoveAt | src/app/GameReviews.tsx:71-75 | in an insertion-ordered list, removing the entry at index i gives the list with position i cut out, one entry shorter |
| ReviewList.AppendFresh | src/app/GameReviews.tsx:57 | appending an object newer than every listed one keeps insertion order and keeps every id below the next one |
| App.PanelOf | src/app/GameReviews.tsx:93-163 | when the invariant holds, exactly one of the form, the detail view and the "New review" button is rendered; the detail view shows the selected review |
| App.Init | src/app/GameReviews.tsx:39-46 | the initial state has no reviews, draft ("", "", 0), the form hidden and nothing selected; it satisfies the invariant and shows the "New review" button |
| App.InputChange | src/app/GameReviews.tsx:48-54 | a field edit changes only the named field of the draft; the list, form flag and selection are untouched |
| App.Save | src/app/GameReviews.tsx:56-60 | the list grows by one, the earlier entries keep their positions, the new last entry holds the draft, the draft is reset, the form is hidden and the selection is unchanged |
| App.Close | src/app/GameReviews.tsx:133-138 | Close hides the form and keeps the draft, the list and the selection |
| App.Open | src/app/GameReviews.tsx:156-162 | the button, offered only when the form is hidden and nothing is selected, shows the form and changes nothing else |
| App.ReviewClick | src/app/GameReviews.tsx:62-69 | a click on a review with the selected review's name clears the selection and keeps the form flag; any other click selects the review and hides the form; the list and draft are untouched |
| App.Delete | src/app/GameReviews.tsx:71-75 | the list keeps exactly the entries that are not the target object; draft, form flag and selection are untouched |
| App.InputChangeInv | src/app/GameReviews.tsx:48-54 | a field edit preserves the invariant |
| App.SaveInv | src/app/GameReviews.tsx:56-60 | Save preserves the invariant, and no entry already listed has the saved object's identity |
| App.CloseInv | src/app/GameReviews.tsx:135 | Close preserves the invariant |
| App.OpenInv | src/app/GameReviews.tsx:156-159 | opening the form from the button preserves the invariant |
| App.ReviewClickInv | src/app/GameReviews.tsx:62-69 | a review click preserves the invariant |
| App.DeleteInv | src/app/GameReviews.tsx:71-75 | Delete preserves the invariant |
| App.TypedTextIsSaved | src/app/GameReviews.tsx:48-60 | the text typed into an input is what the saved review holds in that field |
| App.DeleteAt | src/app/GameReviews.tsx:71-75 | deleting a listed review removes exactly that one entry and keeps the order of the rest |
| App.DeleteAbsent | src/app/GameReviews.tsx:71-75 | deleting a review that is not listed changes nothing |
| App.DeleteSelectedStaysSelected | src/app/GameReviews.tsx:71-75 | deleting the selected review removes it from the list but leaves it selected and shown in the detail view |
| App.CloseThenOpen | src/app/GameReviews.tsx:133-162 | closing an open form and opening it again restores the state, draft included |
| App.OpenThenClose | src/app/GameReviews.tsx:133-162 | opening the form and closing it again restores the state |
| App.ClickTwice | src/app/GameReviews.tsx:62-69 | from the state with the form hidden and nothing selected, clicking a review twice returns to that state |
| App.ClickNamesake | src/app/GameReviews.tsx:63 | a different review with the selected review's name toggles the selection off, and a second click selects it |
| App.PanelTransitions | src/app/GameReviews.tsx:56-75 | the button opens the form; Save and Close return to the list view; a click shows the clicked review unless it toggles the selected one off; edits and deletions keep the panel |
| Events.StepInv | src/app/GameReviews.tsx:48-75 | any event the rendered component offers preserves the invariant |
| Events.RunInv | src/app/GameReviews.tsx:48-75 | any run of offered events preserves the invariant |
| Events.Reachable | src/app/GameReviews.tsx:93-163 | in every reachable state, the form and a detail view are never shown together, the list is in insertion order, and the button is shown exactly when neither is |
| Events.SaveOneScenario | src/app/GameReviews.tsx:48-60 | typing name "N", description "D" and score "5" and saving stores exactly that review, with the score as typed text, and resets the draft |
| Events.SaveTwoScenario | src/app/GameReviews.tsx:56-60 | saving "A" and then "B" lists them in that order, each with its own identity, and leaves the empty draft, the form hidden and nothing selected |
| Events.SaveSaveDeleteScenario | src/app/GameReviews.tsx:56-75 | save A, save B, delete A leaves the list [B] |

## Left out

- Rendering: the JSX markup, the CSS classes and the `GameReview` presentational
  component (lines 9-36, 77-167). They have no logic. Their render guards are
  modelled in `Events.Enabled`.
- React scheduling: `useState` batching, and the difference between functional
  updaters and values captured by the closure. Each handler is one atomic
  transition.
- DOM events and value coercion. An input reports its text, and the model
  stores that text unchanged (`Draft.Value.Str`). The initial score is the
  number 0 (`Num(0)`). JavaScript numbers are not modelled beyond that.
- The index-based React keys (line 83): these only matter for rendering.
- The render guard of the form (line 93) is not a precondition of
  `App.InputChange`, `App.Save` or `App.Close`, because those handlers do not
  check it. It appears only in `Events.Enabled`.
- Object identity is modelled by a counter of saved objects (`nextId`). The
  model does not represent the heap itself.
