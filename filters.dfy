/**
 * The filter-name dispatch of `apply_filter` and its repeated prompt.
 *
 * The user's answer is compared, exactly and case-sensitively, with five
 * names. Any other answer leaves the program without a filtered image, the
 * failure is caught and the question is asked again. The filters themselves
 * belong to the imaging library and are not modelled here.
 */
module Filters {

  import opened Wrappers

  datatype Filter = Detail | Sharpen | Blur | Smooth | Contour

  /** The answer that selects each filter. */
  function FilterName(f: Filter): string {
    match f
    case Detail => "detail"
    case Sharpen => "sharpen"
    case Blur => "blur"
    case Smooth => "smooth"
    case Contour => "contour"
  }

  const FilterNames: set<string> := {"detail", "sharpen", "blur", "smooth", "contour"}

  /**
   * The filter an answer selects: some filter exactly when the answer is one
   * of the five names, and then the filter of that name.
   */
  function SelectFilter(answer: string): (r: Option<Filter>)
    ensures r.Some? <==> answer in FilterNames
    ensures r.Some? ==> FilterName(r.value) == answer
  {
    if answer == "detail" then Some(Detail)
    else if answer == "sharpen" then Some(Sharpen)
    else if answer == "blur" then Some(Blur)
    else if answer == "smooth" then Some(Smooth)
    else if answer == "contour" then Some(Contour)
    else None
  }

  /** Every filter is selected by its own name, so the dispatch reaches all five. */
  lemma SelectFilterName(f: Filter)
    ensures SelectFilter(FilterName(f)) == Some(f)
  {
  }

  /**
   * The number of answers rejected before the first accepted one; all of
   * them when none is accepted.
   */
  function FirstAccepted(answers: seq<string>): (k: nat)
    ensures k <= |answers|
    ensures forall i :: 0 <= i < k ==> SelectFilter(answers[i]).None?
    ensures k < |answers| ==> SelectFilter(answers[k]).Some?
  {
    if answers == [] then 0
    else if SelectFilter(answers[0]).Some? then 0
    else 1 + FirstAccepted(answers[1..])
  }

  /**
   * Asks for a filter name until one is accepted. Returns the selected
   * filter and the number of answers read, or no filter once the answers
   * run out.
   */
  method PromptFilter(answers: seq<string>) returns (choice: Option<Filter>, asked: nat)
    ensures asked <= |answers|
    ensures choice.Some? ==> 0 < asked && SelectFilter(answers[asked - 1]) == choice
    ensures choice.None? ==> asked == |answers|
    ensures forall i :: 0 <= i < asked && (choice.None? || i < asked - 1) ==> SelectFilter(answers[i]).None?
    ensures asked == if choice.Some? then FirstAccepted(answers) + 1 else FirstAccepted(answers)
  {
    asked := 0;
    while asked < |answers|
      invariant asked <= |answers|
      invariant forall i :: 0 <= i < asked ==> SelectFilter(answers[i]).None?
    {
      var selected := SelectFilter(answers[asked]);
      asked := asked + 1;
      if selected.Some? {
        choice := selected;
        FirstAcceptedIsFirst(answers, asked - 1);
        return;
      }
    }
    choice := None;
    FirstAcceptedIsFirst(answers, asked);
  }

  /** Any position before which every answer is rejected, and which is accepted or the end, is FirstAccepted. */
  lemma FirstAcceptedIsFirst(answers: seq<string>, k: nat)
    requires k <= |answers|
    requires forall i :: 0 <= i < k ==> SelectFilter(answers[i]).None?
    requires k < |answers| ==> SelectFilter(answers[k]).Some?
    ensures FirstAccepted(answers) == k
  {
  }
}
