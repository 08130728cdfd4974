# photoeditor command-line editor: a Dafny model

This project models the core of `main.py`, an interactive command-line photo
editor built on an imaging library. It covers three parts:

- **The colour-replacement pass of `change_color`.** It visits every
  coordinate of the image's pixel map. Each pixel equal to a source RGB
  triple is overwritten in place with a target triple. The same image
  object is handed back.
- **The filter-name dispatch of `apply_filter`.** It maps exactly five
  names, case-sensitively, onto five filters. Any other name is rejected
  and the question is asked again.
- **The command loop.** It is a state machine over the current image:
  `edit` with a recognised edit replaces the image, `save` ends the loop,
  and anything else leaves the image alone.

Modules:

- `Wrappers` (`wrappers.dfy`): `Option`.
- `Pixels` (`pixels.dfy`): pixels are sequences of channel values.
  - The pass compares every pixel with a 3-channel value, whatever the
    image mode; a pixel with 4 channels (RGBA) or 1 (grey-scale) never
    equals it.
  - `Raster`/`Bitmap` is a whole image value, stored column by column, so
    that the first index ranges over the width as in the pixel map.
  - `Recoloured` is the replacement pass stated on values, with its lemmas.
- `Images` (`image.dfy`): the image object.
  - `Image` owns an `array2` pixel map with `Length0` = width and
    `Length1` = height.
  - `ChangeColor` is the nested-loop pass that updates that array in place
    and returns the object it was given.
- `Filters` (`filters.dfy`): `SelectFilter`, the name dispatch, and
  `PromptFilter`, the repeated prompt over the user's successive answers.
- `Session` (`session.dfy`): the command loop.
  - `Step` and `Run` specify the loop on image values.
  - `EditSession` is the loop itself over image objects.
  - The imaging library's resize, rotate and filter operations are the
    function parameters of `Library`. Each returns a new raster, which the
    loop wraps in a fresh `Image`.

What the user types is modelled as a sequence of `Turn`s. Each turn holds the
command, the edit name and the answers that the chosen edit goes on to read.
Over finite input, a session either stops at a `save` or runs out of input
while still prompting (`OutOfInput`).

The comment at main.py:62 ("change to black if not red") is stale. The model
follows the code, which writes the user's target triple. `main.py` has no
operation log, history, undo, crop, sepia, invert, brightness or contrast
logic, and none is modelled.

## Model

| member | source | states |
|---|---|---|
| `Pixels.RecolourPixel` | main.py:61-63 | the test and write for one pixel: the result differs from the pixel only when the pixel equalled the source, and then it is the target; a pixel with other than three channels is returned as it is |
| `Pixels.Recoloured` | main.py:58-63 | the replacement pass keeps the image's width and height |
| `Pixels.RecolouredAt` | main.py:61-63 | for a target whose channels fit in a byte: a pixel that equalled the source triple now equals the target; every other pixel keeps its value |
| `Pixels.RecolouredToTargetIff` | main.py:61-63 | for a target whose channels fit in a byte: a pixel holds the target afterwards if and only if it held the source or already held the target |
| `Pixels.RecolouredKeepsChannelCount` | main.py:61-63 | a pixel with other than three channels is never changed, and no pixel changes its channel count |
| `Pixels.RecolourSameIsIdentity` | main.py:61-63 | when the source equals the target the pass leaves the image unchanged |
| `Pixels.RecolourClearsSource` | main.py:61-63 | for a target whose channels fit in a byte that differs from the source, no pixel equals the source afterwards |
| `Pixels.RecolourIdempotent` | main.py:59-63 | applying the same replacement twice gives the image one application gives |
| `Images.ChangeColor` | main.py:58-66 | every coordinate of the width-by-height map is visited; matched pixels become the target, all others keep their value; the dimensions are unchanged; the new map is `Recoloured` of the old one; the returned object is the argument itself |
| `Filters.SelectFilter` | main.py:75-85 | a filter is selected exactly when the answer is one of "detail", "sharpen", "blur", "smooth", "contour" (case-sensitive), and it is the filter of that name |
| `Filters.SelectFilterName` | main.py:76-85 | each of the five filters is reached by its own name |
| `Filters.FirstAccepted` | main.py:73-90 | the number of answers rejected before the first accepted one: every earlier answer is rejected and the one at that position is accepted (or the answers ran out) |
| `Filters.FirstAcceptedIsFirst` | main.py:73-90 | the first accepted position is unique: any position before which all answers are rejected, and which is accepted or the end, is `FirstAccepted` |
| `Filters.PromptFilter` | main.py:72-90 | the prompt repeats while answers are rejected; it returns the filter of the first accepted answer after reading exactly up to it, or no filter after reading every answer |
| `Session.ParseEdit` | main.py:108-120 | exactly "resize", "rotate", "apply filter" and "change color" are recognised edits, each selecting the edit of that name |
| `Session.ApplyEdit` | main.py:109-120 | the result of one chosen edit on the current image; there is none exactly when the edit is `apply filter` and no answer names a filter; `change color` always gives an image of the same width and height |
| `Session.Step` | main.py:105-123 | a turn saves if and only if its command is `save`, and then keeps the image; a turn that is neither `save` nor `edit` with a recognised edit keeps the image and continues; a turn waits forever exactly when it is a filter prompt that gets no accepted name; any other `edit` with a recognised edit continues with that edit's result (`ApplyEdit`) in place of the image |
| `Session.Run` | main.py:105-123 | the loop on image values: it stops at the first `save` with that turn's index, stops with the current image when a filter prompt stalls or the turns run out, and otherwise continues with `Step`'s image; a saved outcome always points at a `save` turn, and turns with no `save` among them never end in a save |
| `Session.SavedOnlyAtFirstSave` | main.py:121-123 | when the loop ends by saving, it is at a `save` command, and no earlier turn was `save` |
| `Session.FirstSaveEndsSession` | main.py:105-123 | the first `save` that no unanswered filter prompt precedes does end the loop, at that turn |
| `Session.IgnoredTurnsKeepImage` | main.py:105-120 | turns that are anything other than `save` or `edit` with a recognised edit leave the image exactly as it was |
| `Session.RepeatedColorChangeIsIdempotent` | main.py:118-120 | choosing `change color` twice with the same triples leaves the image as one choice does |
| `Session.PerformEdit` | main.py:109-120 | one chosen edit yields `ApplyEdit` of the current image; resize, rotate and filter give a fresh object and leave the current one untouched; change color gives back the same object, updated in place |
| `Session.EditSession` | main.py:105-123 | the loop ends with the image, save flag and save index that `Run` gives from the initial image; the result is the caller's own object exactly when no resize, rotate or filter edit ran before the loop stopped, and otherwise a fresh one |

## Left out

- Console I/O is not modelled: the `input()` prompts, the messages and the `.show()` calls (main.py:29, 42, 65, 86, 124). User input is a parameter, the sequence of `Turn`s.
- The `except: continue` retry loops of `rotate`, `resize` and `change_color` (main.py:25-33, 37-46, 50-69) are not modelled. Apart from library errors (below), they re-ask when an answer is not an integer, and the model receives the parsed integers.
- The retry loop of `change_type` (main.py:7-21) is not modelled. The YES/NO test is made on the upper-cased answer (main.py:9), so it ignores case. On the first pass, an answer other than YES or NO leaves `newName` unbound, the save fails and the question is asked again (main.py:11-16, 19-21). On a later pass, after a save that failed, such an answer saves again under the previous name (main.py:16); if that save succeeds, the loop ends without asking again. A save that the library refuses is asked again (main.py:16, 19-21).
- The retry of `apply_filter` is modelled by `PromptFilter`.
- Loading the image from a file or a URL (main.py:93-103) is file and network I/O. The loop starts from a given image object. The path where `im` is never bound ends the program and is not modelled.
- Saving and choosing the file type (`change_type`, main.py:6-21) is delegated to the imaging library by file extension. The model records only that `save` ends the loop with the current image.
- The imaging library's `resize`, `rotate` and `filter` (main.py:28, 41, 77-85) are uninterpreted function parameters and are assumed to succeed. A library error that would make the program ask again, such as a negative size, is not modelled.
- `Images.ChangeColor`: requires every target channel to lie in 0..255. `Session.EditSession` requires the same of the turns that choose `change color`, through `TargetsInByteRange`. What the imaging library does with an out-of-range value written at main.py:63 is not part of this model.
- `Pixels.Recoloured`: an out-of-range target is written as it is, unclamped, so `Session.Step` and `Session.Run` do the same for such a turn. The lemmas that say a pixel now holds the target (`Pixels.RecolouredAt`, `Pixels.RecolouredToTargetIff`, `Pixels.RecolourClearsSource`) are stated only for byte-range targets, where an 8-bit image stores the target exactly.
- `Session.EditSession`: input is finite in the model. Where the program would block waiting for more input, the model stops with `OutOfInput`. This also covers a filter prompt that never gets an accepted name.
