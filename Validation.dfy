/**
 * The required-field test shared by create and update:
 * `!title?.trim() || !summary?.trim() || !description?.trim()`.
 * Each conjunct is evaluated left to right and the first failing one decides.
 */
module Validation {
  import opened Text

  /** The shape of one text field of a parsed JSON body. */
  datatype Field =
    | Absent            // undefined or null: `?.` yields undefined
    | Str(text: string) // a string: `trim` runs
    | NonStr            // a number, boolean, array or object: `trim` is not a function

  /** What the test does with a body: let it through, answer 400, or throw a TypeError. */
  datatype Verdict = Accepted | Rejected | Throws

  /** A field that passes: a string whose trim is not empty. */
  predicate IsFilled(f: Field) {
    f.Str? && HasText(f.text)
  }

  /** One conjunct `!f?.trim()`. */
  function CheckField(f: Field): (v: Verdict)
    ensures v == Accepted <==> IsFilled(f)
    ensures v == Throws <==> f.NonStr?
  {
    match f
    case Absent => Rejected
    case NonStr => Throws
    case Str(s) =>
      HasTextIsNotBlank(s);
      if Trim(s) == [] then Rejected else Accepted
  }

  /** Lines 61 and 129: the whole test, with JavaScript's short-circuit order. */
  function CheckRequired(title: Field, summary: Field, description: Field): (v: Verdict)
    ensures v == Accepted <==> IsFilled(title) && IsFilled(summary) && IsFilled(description)
    ensures v == Throws <==>
      || title.NonStr?
      || (IsFilled(title) && summary.NonStr?)
      || (IsFilled(title) && IsFilled(summary) && description.NonStr?)
  {
    var t := CheckField(title);
    if t != Accepted then t
    else
      var s := CheckField(summary);
      if s != Accepted then s
      else CheckField(description)
  }

  /** A title of nothing but white space is refused with 400, whatever the other fields hold. */
  lemma BlankTitleRejected(title: string, summary: Field, description: Field)
    requires IsBlank(title)
    ensures CheckRequired(Str(title), summary, description) == Rejected
  {
  }

  /** A body that omits any one required field after the filled ones is refused with 400. */
  lemma MissingFieldRejected(title: Field, summary: Field, description: Field)
    requires title.Absent? || (IsFilled(title) && summary.Absent?)
      || (IsFilled(title) && IsFilled(summary) && description.Absent?)
    ensures CheckRequired(title, summary, description) == Rejected
  {
  }

  lemma TwoSpacesTitleExample()
    ensures CheckRequired(Str("  "), Str("s"), Str("d")) == Rejected
  {
    BlankTitleRejected("  ", Str("s"), Str("d"));
  }
}
