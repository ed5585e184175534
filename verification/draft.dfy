/**
 The review record and the draft buffer bound to the "new review" form of
 src/app/GameReviews.tsx. A review has three fields, `name`, `desc` and
 `review`; the form edits them through three inputs whose `name` attributes
 are the field names, and the edit handler writes the input's text into the
 field the attribute names.
 */
module Draft {

  /** A field's value. Every input reports its text, so an edited field holds
      `Str`; the score of an empty draft is the number 0, which is `Num(0)`.
      No coercion between the two happens: the score input's text is stored
      as text. */
  datatype Value = Str(text: string) | Num(n: int)

  /** The three form inputs, named after the field each one writes:
      "name", "desc" and "review" (the score). */
  datatype Field = Name | Desc | Score

  datatype Review = Review(name: Value, desc: Value, review: Value)

  /** The value the field `f` of `d` holds. */
  function Get(d: Review, f: Field): Value
  {
    match f
    case Name => d.name
    case Desc => d.desc
    case Score => d.review
  }

  /** The empty draft `{ name: "", desc: "", review: 0 }`, used both as the
      initial draft and as the draft after a save. */
  function Empty(): (d: Review)
    ensures forall f :: Get(d, f) == if f == Score then Num(0) else Str("")
  {
    Review(Str(""), Str(""), Num(0))
  }

  /** The draft after the input `f` reports `text`: a copy of `d` with that
      one field overwritten. */
  function Set(d: Review, f: Field, text: string): (r: Review)
    ensures Get(r, f) == Str(text)
    ensures forall g :: g != f ==> Get(r, g) == Get(d, g)
  {
    match f
    case Name => d.(name := Str(text))
    case Desc => d.(desc := Str(text))
    case Score => d.(review := Str(text))
  }

  /** Two edits of the same input: only the last one is kept. */
  lemma SetLastWins(d: Review, f: Field, t1: string, t2: string)
    ensures Set(Set(d, f, t1), f, t2) == Set(d, f, t2)
  {
  }

  /** Edits of two different inputs do not interfere: their order does not matter. */
  lemma SetCommutes(d: Review, f: Field, g: Field, t: string, u: string)
    requires f != g
    ensures Set(Set(d, f, t), g, u) == Set(Set(d, g, u), f, t)
  {
  }

  /** Reporting the text a field already holds leaves the draft as it was. */
  lemma SetSameText(d: Review, f: Field)
    requires Get(d, f).Str?
    ensures Set(d, f, Get(d, f).text) == d
  {
  }
}
