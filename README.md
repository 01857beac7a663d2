# CitasPost quote-to-image editor, modelled in Dafny

CitasPost is a browser app: the user types a topic, a chat-completion
service answers with quotes separated by `|`, the user edits and picks one,
and an editor lays the quote over a background image as a draggable,
resizable text layer. This project models the logic behind that flow and
proves what it guarantees:

- `js_string.dfy` (module `JsString`): JavaScript's `String.prototype.trim`
  over the ECMAScript WhiteSpace and LineTerminator code points (ECMA-262,
  sections 12.2 and 12.3), and the "blank" test that `if (s.trim())` makes.
- `types.dfy` (module `Types`): `Quote`, points, `BackgroundOption`, the
  output formats and the preset image library, plus `Option` and `Result`.
- `groq_service.dfy` (module `GroqService`): what `generateQuotes` does with
  the reply: `content.split('|').map(trim).filter(Boolean)`, with `split` and
  `join` written out, and the rewrapping of every failure into one error.
- `app_state.dfy` (module `AppState`): class `App`, the page state (quotes,
  selection, loading flag, error banner, last prompt) and its handlers:
  generate, regenerate, select, update by id.
- `quote_list.dfy` (module `QuoteListState`): class `QuoteList`, the single
  edit slot and its save, and the selected marker.
- `quote_input.dfy` (module `QuoteInputState`): class `QuoteInput`, the
  submit guard and the disabled conditions.
- `image_customizer.dfy` (module `ImageCustomizerState`): class
  `ImageCustomizer`, the mouse gesture state machine over the text layer
  (drag, resize, the rotate handle), selection and background choice. Its
  object invariant `Valid()` keeps the position inside [0,100]² percent,
  the width inside [100,800] pixels and the rotation at 0; every handler
  preserves it.

The service call is an atomic step whose outcome (`CallOutcome`: a returned
completion, or a thrown call) is a parameter. `generateUniqueId` lives in
lib/utils, which is not part of this model; it is modelled as a counter
(`App.nextId`) that hands out a new identifier on each call. Pointer
coordinates and sizes are exact reals. The container's measured size is a
parameter with positive extents, and `None` when the element is missing.
The rotate handle's start angle is a parameter too (`None` when the layer
could not be measured).

What the code does, and the model with it:

- A missing or blank reply is not an error: `generateQuotes` returns an
  empty list for it (src/services/groq.ts:33-34). Only a failed call is an
  error.
- `setFontSize` does not clamp. Only the range input carries the 16–72
  bounds (src/components/ImageCustomizer.tsx:255-262), so the model has no
  font-size bound.
- Nothing calls `setRotation`, and there is no rotating flag. A mouse-down
  on the rotate handle's own element only overwrites the pointer snapshot
  (src/components/ImageCustomizer.tsx:45-54), and the model proves that
  the rotation stays 0.
- The gesture flags are two booleans, `isDragging` and `isResizing`. One
  mouse-down sets at most one of them, so from idle at most one is set
  (`MouseDown`). A resize mouse-down that arrives while a drag is still
  active would set both, and a move then runs both branches. The model
  keeps that behaviour as written.
- `handleMouseDown` classifies `e.target` with `instanceof HTMLElement` and
  a class name (src/components/ImageCustomizer.tsx:39, 45). The rotate
  handle is filled by a `RotateCw` icon of the same size (lines 353-357),
  and an SVG element is not an `HTMLElement`. So a press on the icon fails
  both tests and starts a drag. `Target` is the result of that
  classification, so such a press is a `TextBody` press.

## Model

| member | source | states |
|---|---|---|
| `JsString.Trim` | src/services/groq.ts:34 | The result has no leading or trailing whitespace, is empty exactly when the input is all whitespace, and holds only characters of the input |
| `JsString.TrimPadded` | src/services/groq.ts:34 | Whitespace added on either side of a trimmed, non-empty string is exactly what trim removes |
| `GroqService.ContentOf` | src/services/groq.ts:33 | With no choices, or no message or content in the first one, the content is ""; a content present in the first choice's message is returned as it is |
| `GroqService.Split` | src/services/groq.ts:34 | `split('\|')` gives one more piece than there are separators, so the empty string gives one empty piece |
| `GroqService.SplitPiecesFree` | src/services/groq.ts:34 | No piece of a split contains the separator |
| `GroqService.JoinSplit` | src/services/groq.ts:34 | Re-joining the pieces of a split with '\|' gives back the original content |
| `GroqService.SplitJoin` | src/services/groq.ts:34 | Splitting a '\|'-join of separator-free pieces gives back exactly those pieces |
| `GroqService.TrimAll` | src/services/groq.ts:34 | `map(quote => quote.trim())`: same length, and each entry is the trim of the piece at the same place |
| `GroqService.DropEmpty` | src/services/groq.ts:34 | `filter(Boolean)` never makes the list longer (what it keeps: `DropEmptyFilters`; order: `DropEmptyAppend` as used by `ParseConcat`) |
| `GroqService.DropEmptyFilters` | src/services/groq.ts:34 | `filter(Boolean)` keeps only non-empty entries of the input, never gets longer, and is as long exactly when no entry was empty |
| `GroqService.ParseQuotes` | src/services/groq.ts:34 | `content.split('\|').map(trim).filter(Boolean)` gives at most one quote more than there are separators |
| `GroqService.ParseQuotesWellFormed` | src/services/groq.ts:34 | No returned quote is empty, none starts or ends with whitespace, none contains '\|' |
| `GroqService.ParseQuotesCount` | src/services/groq.ts:34 | At most (number of '\|') + 1 quotes, with equality exactly when every piece holds non-whitespace text |
| `GroqService.ParseBlank` | src/services/groq.ts:33-34 | Blank content, including the empty string for a missing message, gives an empty list, not an error |
| `GroqService.ParseConcat` | src/services/groq.ts:34 | The quotes of `a`, a separator and `b` are the quotes of `a` followed by those of `b`: order is kept |
| `GroqService.ParsePaddedRoundTrip` | src/services/groq.ts:34 | Any list of quotes the parser can return, written with '\|' and any blank padding before and after each quote (as in "A \| B \| C"), parses back to exactly that list in order |
| `GroqService.GenerateQuotes` | src/services/groq.ts:33-38 | Fails exactly when the call threw, always with the one fixed message; otherwise returns the parse of the first choice's content (or of ""), well-formed quotes only |
| `AppState.ErrorText` | src/App.tsx:31 | An `Error`'s own message, and the fixed fallback text for any other thrown value |
| `AppState.NewQuotes` | src/App.tsx:23-28 | One quote per returned text, same order and texts, every id fresh and no id repeated |
| `AppState.UpdateById` | src/App.tsx:96 | Length, order and ids unchanged; entries with another id unchanged; the entry with that id gets the new text |
| `AppState.LookupAfterUpdate` | src/App.tsx:96 | After the update, that id (if present) now shows the new text and every other id shows exactly what it showed before |
| `AppState.UpdateLastWins` | src/App.tsx:96 | Two updates of the same id leave only the second text |
| `AppState.UpdateKeepsSelection` | src/App.tsx:96-99 | Updating the list and, for the same id, the selected quote keeps the selection one of the listed quotes |
| `AppState.App.constructor` | src/App.tsx:11-15 | Starts with no quotes, no selection, not loading, no error, empty last prompt |
| `AppState.App.BeginGeneration` | src/App.tsx:18-20 | Starting a generation sets loading, clears the error and records the prompt, leaving the list and selection as they were |
| `AppState.App.FinishGeneration` | src/App.tsx:22-35 | Success: the list's texts are exactly the returned texts, with fresh ids taken from the counter, which advances by their number, and the selection is cleared. Failure: the error is the thrown message (or the fallback), the list is emptied and the selection is untouched. Loading ends either way |
| `AppState.App.HandleGenerateQuotes` | src/App.tsx:17-36 | After the whole handler the last prompt is the prompt and loading is off. On a returned reply the list shows the parsed quotes, all well-formed and with fresh ids, with no selection and no error. On a thrown call the error is the fixed message and the list is empty |
| `AppState.App.HandleRegenerateQuotes` | src/App.tsx:38-42 | With an empty last prompt nothing changes; otherwise it has the effect of generating from the last prompt |
| `AppState.App.SelectQuote` | src/App.tsx:94 | Selecting a listed quote makes it the selection and keeps the invariant |
| `AppState.App.UpdateQuote` | src/App.tsx:95-100 | The list is rewritten by id. The selection takes the new text only when it has that id, otherwise it is unchanged. Ids stay distinct and the selection stays in the list |
| `QuoteListState.IsMarkedSelected` | src/components/QuoteList.tsx:34 | With no selection no card is marked; a card with the selected id is marked even when its text differs from the selected copy |
| `QuoteListState.AtMostOneMarked` | src/components/QuoteList.tsx:34 | With distinct ids no two cards carry the selected marker, and a listed selected quote marks a card |
| `QuoteListState.QuoteList.constructor` | src/components/QuoteList.tsx:13-14 | Nothing is being edited at first |
| `QuoteListState.QuoteList.IsEditing` | src/components/QuoteList.tsx:39 | With the slot empty no card shows the editor; the card whose id is in the slot does |
| `QuoteListState.QuoteList.HandleEdit` | src/components/QuoteList.tsx:16-19 | Editing a quote opens the single slot on its id with its current text |
| `QuoteListState.QuoteList.ChangeEditText` | src/components/QuoteList.tsx:43 | Typing replaces the draft and leaves the edited id alone |
| `QuoteListState.QuoteList.HandleSave` | src/components/QuoteList.tsx:21-26 | An update is reported exactly when the draft is not blank, for that id and with the trimmed (non-empty, trimmed) draft; edit mode is always left |
| `QuoteListState.QuoteList.AtMostOneEditing` | src/components/QuoteList.tsx:39 | Among cards with distinct ids no two show the editor, because there is one slot, and the card whose id is in the slot shows it |
| `QuoteInputState.QuoteInput.constructor` | src/components/QuoteInput.tsx:10 | The prompt starts empty |
| `QuoteInputState.QuoteInput.ChangePrompt` | src/components/QuoteInput.tsx:24 | Each change overwrites the prompt |
| `QuoteInputState.QuoteInput.HandleSubmit` | src/components/QuoteInput.tsx:12-17 | A generation is requested exactly when the prompt is not blank, and with the prompt as typed, not trimmed |
| `QuoteInputState.QuoteInput.SubmitDisabled` | src/components/QuoteInput.tsx:31 | The button is disabled exactly while loading or while the prompt is blank |
| `QuoteInputState.QuoteInput.TextAreaDisabled` | src/components/QuoteInput.tsx:27 | Disabled exactly while loading; whenever it is disabled the button is too, and when it is enabled the button is disabled only for a blank prompt |
| `ImageCustomizerState.Clamp` | src/components/ImageCustomizer.tsx:72-73 | `Math.max(lo, Math.min(hi, v))` lands in [lo,hi], is the identity inside it and gives the nearer bound outside |
| `ImageCustomizerState.DragAxis` | src/components/ImageCustomizer.tsx:68-73 | One axis of a drag move lands in [0,100] percent |
| `ImageCustomizerState.DragTarget` | src/components/ImageCustomizer.tsx:63-74 | A drag move's position always lies in [0,100]² |
| `ImageCustomizerState.DragAxisMonotone` | src/components/ImageCustomizer.tsx:68-73 | Moving the pointer further never moves the layer back, and returning the pointer to the drag start restores the start position |
| `ImageCustomizerState.DragPastEdgeClamps` | src/components/ImageCustomizer.tsx:68-72 | Dragging +1000 px in a 500 px wide container from x = 50 ends at x = 100 |
| `ImageCustomizerState.ResizeStep` | src/components/ImageCustomizer.tsx:79-80 | A resize move's width always lies in [100,800] |
| `ImageCustomizerState.ResizeGesture` | src/components/ImageCustomizer.tsx:78-82 | A resize gesture of at least one move ends with a width in [100,800]; no move changes nothing |
| `ImageCustomizerState.ResizeTelescopes` | src/components/ImageCustomizer.tsx:79-81 | While no step reaches a bound, the re-anchored steps add up to twice the total pointer travel |
| `ImageCustomizerState.ResizeLosesClampedTravel` | src/components/ImageCustomizer.tsx:79-81 | Because each move re-anchors, travel beyond a bound is lost: +400 px then back ends at 100, not at the starting 300 |
| `ImageCustomizerState.ImageCustomizer.constructor` | src/components/ImageCustomizer.tsx:14-36 | Initial state: first format, first `naturaleza` image, position (50,50), font size 24, width 300, rotation 0, not selected, no gesture |
| `ImageCustomizerState.ImageCustomizer.MouseDown` | src/components/ImageCustomizer.tsx:38-59 | Resize handle: only `isResizing` is set, and the pointer is recorded. Body: only `isDragging` is set, and the pointer and position are recorded. Rotate handle: no flag is set and only the angle snapshot changes. From idle at most one flag ends up set. Only the two flags and the two snapshots can change; position, width, rotation, selection, format, category and background stay as they were |
| `ImageCustomizerState.ImageCustomizer.MouseMove` | src/components/ImageCustomizer.tsx:61-83 | While dragging, the position becomes the clamped offset from the gesture-start snapshots. While resizing, the width takes one clamped step and the anchor moves to the pointer. With no gesture nothing changes. Only the position, the width and the anchor can change, and the bounds are preserved |
| `ImageCustomizerState.ImageCustomizer.MouseUp` | src/components/ImageCustomizer.tsx:85-88 | Both gesture flags are cleared and nothing else changes |
| `ImageCustomizerState.ImageCustomizer.ClickText` | src/components/ImageCustomizer.tsx:339-342 | Clicking the layer selects it |
| `ImageCustomizerState.ImageCustomizer.ClickBackground` | src/components/ImageCustomizer.tsx:314 | Clicking the background clears the selection |
| `ImageCustomizerState.ImageCustomizer.SelectCategory` | src/components/ImageCustomizer.tsx:153-158 | A category becomes current and its first image wholly replaces the background |
| `ImageCustomizerState.ImageCustomizer.SelectPresetImage` | src/components/ImageCustomizer.tsx:176 | The chosen image wholly replaces the background |
| `ImageCustomizerState.ImageCustomizer.ChangeBackgroundColor` | src/components/ImageCustomizer.tsx:200-202 | The colour is remembered and wholly replaces the background as `{color, value}` |
| `ImageCustomizerState.ImageCustomizer.FileLoaded` | src/components/ImageCustomizer.tsx:117-121 | A string read result replaces the background as `{image, value}`; any other result changes nothing |

## Left out

- The chat-completion request itself (src/services/groq.ts:8-31) and the module-load check for the API key (src/services/groq.ts:4-6). They are network and environment code; the request's outcome is a parameter.
- The `console.error` logging in src/services/groq.ts:36 and src/components/ImageCustomizer.tsx:108. It is output only.
- Rasterizing and downloading the image. `htmlToImage.toPng` is a foreign library and the anchor click is DOM (src/components/ImageCustomizer.tsx:101-111, src/App.tsx:44-49).
- The asynchronous `FileReader` read (src/components/ImageCustomizer.tsx:113-125). Only its `onload` outcome is modelled (`FileLoaded`).
- Registering and removing the window listeners (src/components/ImageCustomizer.tsx:90-99). This is UI lifecycle. It is modelled as "a move changes nothing unless a gesture flag is set".
- `Math.atan2`, `getBoundingClientRect` and IEEE rounding. Arithmetic is exact. The container size and the rotate-handle angle are parameters.
- A container measured with zero width or height. In JavaScript the division then gives NaN or ±Infinity, and a NaN position escapes the clamp. The model only admits positive extents.
- The plain setters with no logic: output format, text colour, alignment, the editor's own copy of the quote text, and font size (src/components/ImageCustomizer.tsx:133, 236, 247, 260, 269-299). The `textIndent` state (src/components/ImageCustomizer.tsx:23, 330) is never set after its initial 0, like `rotation`, and is not modelled. The font size field is modelled only in the initial state. The range input's 16–72 bounds are not enforced by any code.
- Overlapping generations: there is no cancellation, so the slower reply wins. Each generation is one atomic step. The regenerate button's `disabled={isLoading}` is therefore not modelled.
- React's closures capture state at render time. Each handler is modelled as reading the current state.
- src/services/flux.ts, src/services/openai.ts (dead code that reads a configuration field that does not exist), src/components/AIImageGenerator.tsx, src/components/FluxImageGenerator.tsx, src/config/env.ts and the unused `PRESET_COLORS` list. None of them is mounted or used by the modelled flow.
- `ImageCustomizerState.ImageCustomizer.MouseDown`: requires the layer to be selected when the target is a handle, because the handles are only rendered while it is selected (src/components/ImageCustomizer.tsx:345-359).
- A press on the rotate handle's SVG icon: it reaches the drag branch (see above), and the model covers it only through the caller passing `TextBody`.
- Strings are sequences of Unicode scalar values, not UTF-16 code units as in JavaScript. Nothing modelled depends on the difference: '|' and every trimmed whitespace character lie in the Basic Multilingual Plane.
