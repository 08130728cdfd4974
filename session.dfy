/**
 * The program's command loop: a state machine over the current image.
 *
 * Each turn the user types a command. `edit` followed by one of four edit
 * names replaces the current image by the result of that edit; `save` ends
 * the loop; anything else, including `edit` followed by an unknown name,
 * leaves the image as it is and asks again. The console is modelled as the
 * sequence of turns the user types, each with the answers that the chosen
 * edit goes on to read. Resizing, rotation and the filters are computed by
 * the imaging library; they are parameters here (`Library`), functions from
 * a raster and the user's answers to a new raster.
 */
module Session {

  import opened Wrappers
  import opened Pixels
  import opened Filters
  import opened Images

  datatype EditKind = Resize | Rotate | ApplyFilter | ChangeColor

  /** The answer that selects each edit. */
  function EditName(e: EditKind): string {
    match e
    case Resize => "resize"
    case Rotate => "rotate"
    case ApplyFilter => "apply filter"
    case ChangeColor => "change color"
  }

  /**
   * The edit an answer selects: exactly the four names are recognised,
   * case-sensitively, each selecting the edit of that name.
   */
  function ParseEdit(answer: string): (r: Option<EditKind>)
    ensures r.Some? <==> answer in {"resize", "rotate", "apply filter", "change color"}
    ensures r.Some? ==> EditName(r.value) == answer
  {
    if answer == "resize" then Some(Resize)
    else if answer == "rotate" then Some(Rotate)
    else if answer == "apply filter" then Some(ApplyFilter)
    else if answer == "change color" then Some(ChangeColor)
    else None
  }

  /** The answers each edit reads once chosen. */
  datatype Answers = Answers(
    width: int, height: int,         // resize
    degrees: int,                    // rotate, counter-clockwise
    filterNames: seq<string>,        // apply filter, one per prompt
    source: Rgb, target: Rgb)        // change color

  /** One pass of the loop: the command and, after `edit`, the edit name and its answers. */
  datatype Turn = Turn(command: string, edit: string, answers: Answers)

  /** The imaging library's edits, each returning a new image. */
  datatype Library = Library(
    resize: (Bitmap, int, int) -> Bitmap,
    rotate: (Bitmap, int) -> Bitmap,
    filter: (Bitmap, Filter) -> Bitmap)

  /**
   * What one turn does with the current image: carry on with a (possibly
   * new) image, save it and stop, or stay at a prompt that the remaining
   * input never answers (a filter prompt given no accepted name).
   */
  datatype Reply = Continue(image: Bitmap) | Save(image: Bitmap) | Waiting

  /** The result of an edit, or nothing when its filter prompt is never answered. */
  function ApplyEdit(b: Bitmap, e: EditKind, a: Answers, lib: Library): (r: Option<Bitmap>)
    ensures r.None? <==> e == ApplyFilter && FirstAccepted(a.filterNames) == |a.filterNames|
    ensures e == ChangeColor ==> r.Some? && r.value.width == b.width && r.value.height == b.height
  {
    match e
    case Resize => Some(lib.resize(b, a.width, a.height))
    case Rotate => Some(lib.rotate(b, a.degrees))
    case ApplyFilter =>
      var k := FirstAccepted(a.filterNames);
      if k < |a.filterNames| then Some(lib.filter(b, SelectFilter(a.filterNames[k]).value)) else None
    case ChangeColor => Some(Recoloured(b, a.source, a.target))
  }

  /** A turn the loop passes over: neither a recognised edit nor `save`. */
  predicate Ignored(t: Turn) {
    t.command != "save" && (t.command != "edit" || ParseEdit(t.edit).None?)
  }

  /** A turn that stops at a filter prompt no answer satisfies. */
  predicate Stalls(t: Turn) {
    t.command == "edit" && ParseEdit(t.edit) == Some(ApplyFilter)
    && FirstAccepted(t.answers.filterNames) == |t.answers.filterNames|
  }

  /** One pass of the loop. */
  function Step(b: Bitmap, t: Turn, lib: Library): (r: Reply)
    ensures r.Save? <==> t.command == "save"
    ensures r.Save? ==> r.image == b
    ensures Ignored(t) ==> r == Continue(b)
    ensures r.Waiting? <==> Stalls(t)
    ensures t.command == "edit" && ParseEdit(t.edit).Some? && !Stalls(t) ==>
      r == Continue(ApplyEdit(b, ParseEdit(t.edit).value, t.answers, lib).value)
  {
    if t.command == "edit" then
      match ParseEdit(t.edit)
      case Some(e) =>
        (match ApplyEdit(b, e, t.answers, lib)
         case Some(b') => Continue(b')
         case None => Waiting)
      case None => Continue(b)
    else if t.command == "save" then Save(b)
    else Continue(b)
  }

  /**
   * How a session over finite input ends: saved at turn `at` with the image
   * that was saved, or still prompting, with the current image, when the
   * input runs out.
   */
  datatype Outcome = Saved(image: Bitmap, at: nat) | OutOfInput(image: Bitmap)

  /** The outcome with its turn index counted `n` turns later. */
  function Later(o: Outcome, n: nat): Outcome {
    match o
    case Saved(b, at) => Saved(b, at + n)
    case OutOfInput(b) => o
  }

  /** The loop run from image `b` over the given turns. */
  function Run(b: Bitmap, turns: seq<Turn>, lib: Library): (r: Outcome)
    ensures r.Saved? ==> r.at < |turns| && turns[r.at].command == "save"
    ensures (forall i :: 0 <= i < |turns| ==> turns[i].command != "save") ==> r.OutOfInput?
    decreases |turns|
  {
    if turns == [] then OutOfInput(b)
    else
      match Step(b, turns[0], lib)
      case Continue(b') => Later(Run(b', turns[1..], lib), 1)
      case Save(_) => Saved(b, 0)
      case Waiting => OutOfInput(b)
  }

  /** Whether an edit before the loop stops puts a new image object in place of the current one. */
  function ReplacesImage(turns: seq<Turn>): bool
    decreases |turns|
  {
    if turns == [] then false
    else
      var t := turns[0];
      if t.command == "edit" && ParseEdit(t.edit).Some? && !Stalls(t) then
        ParseEdit(t.edit).value != ChangeColor || ReplacesImage(turns[1..])
      else if t.command == "edit" && ParseEdit(t.edit).Some? then false
      else if t.command == "save" then false
      else ReplacesImage(turns[1..])
  }

  /** The loop stops only at a `save` command, and at the first one. */
  lemma {:induction false} SavedOnlyAtFirstSave(b: Bitmap, turns: seq<Turn>, lib: Library)
    decreases |turns|
    ensures Run(b, turns, lib).Saved? ==>
      var at := Run(b, turns, lib).at;
      at < |turns| && turns[at].command == "save"
      && forall i :: 0 <= i < at ==> turns[i].command != "save"
  {
    if turns != [] {
      match Step(b, turns[0], lib)
      case Continue(b') =>
        SavedOnlyAtFirstSave(b', turns[1..], lib);
      case Save(_) =>
      case Waiting =>
    }
  }

  /** The first `save` that no stalled filter prompt precedes does end the loop. */
  lemma {:induction false} FirstSaveEndsSession(b: Bitmap, turns: seq<Turn>, lib: Library, k: nat)
    requires k < |turns| && turns[k].command == "save"
    requires forall i :: 0 <= i < k ==> turns[i].command != "save" && !Stalls(turns[i])
    ensures Run(b, turns, lib).Saved? && Run(b, turns, lib).at == k
    decreases k
  {
    if k > 0 {
      var b' := Step(b, turns[0], lib).image;
      FirstSaveEndsSession(b', turns[1..], lib, k - 1);
    }
  }

  /** Turns that are neither a recognised edit nor `save` leave the image as it was. */
  lemma {:induction false} IgnoredTurnsKeepImage(b: Bitmap, turns: seq<Turn>, lib: Library)
    requires forall i :: 0 <= i < |turns| ==> Ignored(turns[i])
    ensures Run(b, turns, lib) == OutOfInput(b)
  {
    if turns != [] {
      IgnoredTurnsKeepImage(b, turns[1..], lib);
    }
  }

  /** Choosing `change color` twice with the same triples gives the image one choice gives. */
  lemma {:induction false} RepeatedColorChangeIsIdempotent(b: Bitmap, t: Turn, lib: Library)
    requires t.command == "edit" && t.edit == "change color"
    ensures Step(b, t, lib).Continue?
    ensures Step(Step(b, t, lib).image, t, lib) == Step(b, t, lib)
  {
    RecolourIdempotent(b, t.answers.source, t.answers.target);
  }

  /** One pass of the loop at turn `k`, as the method takes it. */
  lemma RunAt(b: Bitmap, turns: seq<Turn>, k: nat, lib: Library)
    requires k < |turns|
    ensures Run(b, turns[k..], lib) ==
      match Step(b, turns[k], lib)
      case Continue(b') => Later(Run(b', turns[k + 1..], lib), 1)
      case Save(_) => Saved(b, 0)
      case Waiting => OutOfInput(b)
    ensures ReplacesImage(turns[k..]) ==
      if turns[k].command == "edit" && ParseEdit(turns[k].edit).Some? && !Stalls(turns[k]) then
        ParseEdit(turns[k].edit).value != ChangeColor || ReplacesImage(turns[k + 1..])
      else if turns[k].command == "edit" && ParseEdit(turns[k].edit).Some? then false
      else if turns[k].command == "save" then false
      else ReplacesImage(turns[k + 1..])
  {
    assert turns[k..][0] == turns[k];
    assert turns[k..][1..] == turns[k + 1..];
  }

  /** A turn that runs the colour change. */
  predicate ChangesColor(t: Turn) {
    t.command == "edit" && ParseEdit(t.edit) == Some(ChangeColor)
  }

  /** Every turn that runs the colour change asks for a target whose channels fit in a byte. */
  predicate TargetsInByteRange(turns: seq<Turn>) {
    forall i :: 0 <= i < |turns| && ChangesColor(turns[i]) ==> turns[i].answers.target.InByteRange()
  }

  /**
   * Performs one chosen edit on the image object `im`: the library's edits
   * give a new object, the colour change writes into `im` and gives `im`
   * back. Gives nothing when a filter prompt is never answered.
   */
  method PerformEdit(im: Image, e: EditKind, a: Answers, lib: Library) returns (next: Option<Image>)
    requires e == ChangeColor ==> a.target.InByteRange()
    modifies im.pixels
    ensures ApplyEdit(old(im.Snapshot()), e, a, lib).None? <==> next.None?
    ensures next.Some? ==> next.value.Snapshot() == ApplyEdit(old(im.Snapshot()), e, a, lib).value
    ensures next.Some? && e == ChangeColor ==> next.value == im
    ensures next.Some? && e != ChangeColor ==> fresh(next.value.pixels)
    ensures e != ChangeColor ==> unchanged(im.pixels)
  {
    if e == Resize {
      var resized := new Image.FromRaster(lib.resize(im.Snapshot(), a.width, a.height));
      next := Some(resized);
    } else if e == Rotate {
      var rotated := new Image.FromRaster(lib.rotate(im.Snapshot(), a.degrees));
      next := Some(rotated);
    } else if e == ApplyFilter {
      var choice, _ := PromptFilter(a.filterNames);
      if choice.None? {
        next := None;
      } else {
        var filtered := new Image.FromRaster(lib.filter(im.Snapshot(), choice.value));
        next := Some(filtered);
      }
    } else {
      var changed := Images.ChangeColor(im, a.source, a.target);
      next := Some(changed);
    }
  }

  /**
   * The command loop over the image object `im0`. Returns the image object
   * current when the loop stopped, whether it stopped at `save`, and the
   * index of that turn.
   */
  method EditSession(im0: Image, turns: seq<Turn>, lib: Library) returns (im: Image, saved: bool, at: nat)
    requires TargetsInByteRange(turns)
    modifies im0.pixels
    ensures var out := Run(old(im0.Snapshot()), turns, lib);
      im.Snapshot() == out.image && saved == out.Saved? && (saved ==> at == out.at)
    ensures im == im0 <==> !ReplacesImage(turns)
    ensures im != im0 ==> fresh(im.pixels)
  {
    ghost var start := im0.Snapshot();
    im := im0;
    var k := 0;
    while k < |turns|
      invariant k <= |turns|
      invariant im.pixels == im0.pixels || fresh(im.pixels)
      invariant im == im0 || fresh(im.pixels)
      invariant Run(start, turns, lib) == Later(Run(im.Snapshot(), turns[k..], lib), k)
      invariant ReplacesImage(turns) == (im != im0 || ReplacesImage(turns[k..]))
    {
      var t := turns[k];
      RunAt(im.Snapshot(), turns, k, lib);
      if t.command == "edit" {
        var edit := ParseEdit(t.edit);
        if edit.Some? {
          var next := PerformEdit(im, edit.value, t.answers, lib);
          if next.None? {
            saved, at := false, 0;
            return;
          }
          im := next.value;
          k := k + 1;
          continue;
        }
      } else if t.command == "save" {
        saved, at := true, k;
        return;
      }
      k := k + 1;
    }
    saved, at := false, 0;
  }
}
