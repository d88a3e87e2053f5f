# Portfolio page script: the four state machines

This project models, in Dafny, the four pieces of sequential logic in the
client-side script of a personal portfolio page (`portfolio-ios-developer/script.js`)
and proves what they promise:

- **Typed headline** (`initTypingAnimation` / `type()`): a cursor types a phrase
  one character per step, pauses, deletes it one character per step and moves on
  to the next phrase cyclically, choosing a delay of 80, 50, 2000 or 500 ms for
  the next step. Module `Typing`: the step as a function `Advance` over
  `TypingState(phraseIndex, charIndex, isDeleting)`, and the class `Typewriter`
  holding the closure's variables, whose `Step` method updates them in place as
  the source does and is proved to follow `Advance`. The phrase list is any
  non-empty list of non-empty strings (the source's five literals are one such);
  lengths and positions are counted in characters, which for the source's ASCII
  phrases are the UTF-16 code units JavaScript counts.
- **Mobile menu** (`initMobileNavigation`): two `active` flags, toggled by a
  hamburger click and cleared by a nav-link click. Module `MobileMenu`: class
  `Menu` with the two flags, and the flag transitions as functions with lemmas
  about any sequence of clicks.
- **Navbar scroll** (`initNavbarScroll`): the navbar style from the current offset,
  and the active-link highlighting loop over the page's sections. Module
  `NavbarScroll`: class `Navbar` whose `OnScroll` method runs the section loop
  over an array of link colours, proved equal to the specification `Highlight`,
  which is in turn proved to be "last match wins".
- **Konami code** (the `keydown` listener): a rolling buffer of the last ten keys,
  compared with the target sequence by joining both with commas. Module `Konami`:
  class `KeyBuffer` with `Press`, JavaScript's `slice` and `join` as functions.

Offsets are whole numbers (pixels). A nav link is identified by its position
among the `.nav-links a` elements; a link's colour is modelled as a boolean
(highlighted or cleared). The menu's and the links' initial state (nothing
active, no colour set) is that of the page's markup, which is not part of this
model; the constructors take it as given. The navbar's look before the first
scroll event comes from the stylesheet and is left unspecified.

## Model

| member | source | states |
|---|---|---|
| `Typing.Substring` | portfolio-ios-developer/script.js:40-43 | JavaScript `substring(0, end)` is the prefix of the phrase up to `end` clamped to the phrase; in range it is exactly `s[start..end]` |
| `Typing.Advance` | portfolio-ios-developer/script.js:36-56 | one call of `type()`; the phrase index it leaves is always a valid index of the phrase list |
| `Typing.AdvanceShowsPrefix` | portfolio-ios-developer/script.js:37-45 | the text shown by a step is exactly the first `charIndex` characters (after the step) of the phrase that was current when the step began |
| `Typing.AdvanceKeepsBounds` | portfolio-ios-developer/script.js:29-56 | with non-empty phrases, `phraseIndex < n`, `!isDeleting ==> 0 <= charIndex < len` and `isDeleting ==> 0 < charIndex <= len` are preserved by every step |
| `Typing.AdvanceSwitches` | portfolio-ios-developer/script.js:47-56 | typing turns into deleting exactly when `charIndex` reaches the phrase length, and exactly then the delay is 2000; deleting ends exactly when `charIndex` reaches 0, exactly then the delay is 500 and the phrase index becomes `(i + 1) % n`; otherwise phrase and direction are kept and the delay is 80 typing, 50 deleting |
| `Typing.Run` | portfolio-ios-developer/script.js:58-61 | the state after `k` rescheduled calls of `type()` still has a valid phrase index |
| `Typing.TypeToEnd` | portfolio-ios-developer/script.js:43-51 | from position `j` of a phrase, `len - j` typing steps reach the end of the phrase and switch to deleting |
| `Typing.DeleteToStart` | portfolio-ios-developer/script.js:40-55 | from position `j > 0`, `j` deleting steps reach the start of the next phrase (cyclically), typing |
| `Typing.CyclicOrder` | portfolio-ios-developer/script.js:36-59 | phrases are shown in cyclic order: from the start of phrase `i`, after exactly `2 * |phrases[i]|` steps the machine is at the start of phrase `(i + 1) mod n`, not deleting |
| `Typing.RunKeepsBounds` | portfolio-ios-developer/script.js:29-59 | the index bounds hold on every state reached by any number of steps |
| `Typing.Typewriter.constructor` | portfolio-ios-developer/script.js:22-31 | the animation starts at phrase 0, character 0, typing, with the bounds established |
| `Typing.Typewriter.Step` | portfolio-ios-developer/script.js:36-59 | the in-place step keeps the bounds, leaves the state `Advance` gives, returns its text and delay, and the text is the prefix of length `charIndex` of the phrase current at the start |
| `MobileMenu.Toggled` | portfolio-ios-developer/script.js:73-74 | a hamburger click flips each of the two flags, independently of the other |
| `MobileMenu.Cleared` | portfolio-ios-developer/script.js:79-80 | a link click leaves both flags false, whatever they were |
| `MobileMenu.ToggleTwice` | portfolio-ios-developer/script.js:72-75 | two hamburger clicks restore both flags |
| `MobileMenu.ToggleKeepsSync` | portfolio-ios-developer/script.js:72-75 | a hamburger click keeps the flags equal exactly when they were equal |
| `MobileMenu.ClearIdempotent` | portfolio-ios-developer/script.js:77-82 | a second link click changes nothing |
| `MobileMenu.Apply` | portfolio-ios-developer/script.js:72-82 | one click of either kind keeps equal flags equal, and a link click closes the menu |
| `MobileMenu.ApplyAll` | portfolio-ios-developer/script.js:72-82 | flags that start equal are equal after any sequence of hamburger and link clicks, and a sequence ending with a link click leaves the menu closed |
| `MobileMenu.ApplyAllOpen` | portfolio-ios-developer/script.js:72-82 | after a sequence of clicks, each flag is its start value flipped once per hamburger click when there was no link click, and otherwise is set exactly when an odd number of hamburger clicks followed the last link click |
| `MobileMenu.Menu.constructor` | portfolio-ios-developer/script.js:67-70 | the button and the list start without the `active` class, as the page's markup has them |
| `MobileMenu.Menu.ClickHamburger` | portfolio-ios-developer/script.js:72-75 | both flags are toggled in place, and equality of the flags is preserved |
| `MobileMenu.Menu.ClickLink` | portfolio-ios-developer/script.js:77-82 | both flags are cleared in place |
| `NavbarScroll.Matches` | portfolio-ios-developer/script.js:212-216 | the section test `top - 100 <= scroll < top - 100 + height`; a section that matches has positive height and starts at or above the offset plus 100 |
| `NavbarScroll.OnlyLink` | portfolio-ios-developer/script.js:217-222 | after a matching section every link is cleared except that section's own link, if it has one |
| `NavbarScroll.Highlight` | portfolio-ios-developer/script.js:210-224 | the section loop leaves one colour per nav link |
| `NavbarScroll.LastMatchWins` | portfolio-ios-developer/script.js:210-224 | if no section contains the offset the colours are unchanged; otherwise link `j` is highlighted exactly when it is the link of the last matching section in document order, so none is when that section has no link |
| `NavbarScroll.Navbar.constructor` | portfolio-ios-developer/script.js:194-196 | `lastScroll` starts at 0 and no link is coloured; the navbar's style before the first scroll is left open |
| `NavbarScroll.Navbar.OnScroll` | portfolio-ios-developer/script.js:198-227 | the style is "scrolled" exactly when the current offset exceeds 100, whatever the previous offset; the in-place loop over sections and links leaves the colours `Highlight` gives; `lastScroll` becomes the offset |
| `Konami.Slice` | portfolio-ios-developer/script.js:353 | `slice(-n)` is the suffix of length `min(n, length)`; a non-negative start drops that many leading elements |
| `Konami.Join` | portfolio-ios-developer/script.js:355 | JavaScript's `join(',')`; it has no contract of its own, and what the listener relies on is stated by the join lemmas below |
| `Konami.JoinStartsWith` | portfolio-ios-developer/script.js:355 | a joined list begins with the first character of its first part |
| `Konami.JoinHasSeparator` | portfolio-ios-developer/script.js:355 | a joined list of two or more parts has the separator right after the first part |
| `Konami.SliceOfPush` | portfolio-ios-developer/script.js:352-353 | pushing a key and cutting to the last `n` gives the last `n` keys of the full history |
| `Konami.JoinInjective` | portfolio-ios-developer/script.js:355 | for non-empty lists, a target of comma-free non-empty keys and a buffer whose keys contain a comma only if they are the comma key, the joined strings are equal exactly when the lists are |
| `Konami.JoinDecidesEquality` | portfolio-ios-developer/script.js:355 | against any non-empty target of non-empty comma-free keys, a buffer of key values (the empty one included) joins to the target's string exactly when it equals the target |
| `Konami.KonamiSequencePlain` | portfolio-ios-developer/script.js:349 | the target has ten keys, each non-empty and comma-free |
| `Konami.FiresExactlyOnSequence` | portfolio-ios-developer/script.js:349-355 | for a buffer of key values, the joined-string comparison holds exactly when the buffer equals the target sequence |
| `Konami.KeyBuffer.constructor` | portfolio-ios-developer/script.js:348 | the buffer starts empty |
| `Konami.KeyBuffer.Press` | portfolio-ios-developer/script.js:351-355 | the key is appended to the history; the buffer has length `min(10, keys pressed)` and is the suffix of that length of the history; the effect fires exactly when the joined buffer equals the joined target, which for key values is exactly when the buffer equals the target |

## Left out

- The DOM itself: element queries, `classList`, `style` assignments and the injected CSS blocks (script.js:274-336, 364-371) are browser side effects; only the flags, the chosen style, the link colours and the fired/not-fired outcome are modelled.
- Timers and animation frames: `setTimeout` in `type()` becomes the returned delay, with `Run` counting rescheduled calls; the 5000 ms reset of the rainbow animation (script.js:357-359), the app-icon bounce (script.js:259-269) and the staggered child reveal (script.js:127-131) are scheduling only.
- Scroll-reveal and counter observers (script.js:114-151, 156-189): wiring to `IntersectionObserver`; the counter also uses floating-point increments and `Math.ceil`.
- Parallax (script.js:233-254) and the smooth-scroll offset (script.js:88-109): floating-point arithmetic on mouse and layout coordinates.
- The load handler, console banners and the `DOMContentLoaded` bootstrap (script.js:6-15, 341-343, 373-374): plumbing with no logic.
- Fractional scroll offsets: `pageYOffset` and the section measures can be fractional in a browser; the model uses integers.
- Typing.Substring: positions and phrase lengths are counted in Unicode characters, while JavaScript's `length` and `substring` count UTF-16 code units; the two agree for the source's ASCII phrases, but a phrase with a character outside the Basic Multilingual Plane takes more steps in the browser (and briefly shows half a surrogate pair) than in the model.
- Typing.Typewriter.constructor: the source's phrase list is fixed; the model takes any non-empty list of non-empty phrases, and an empty phrase (on which the source would type forever) is excluded.
- Konami.KeyBuffer.Press: the equivalence of the joined comparison with list equality is stated for buffers whose keys contain a comma only when they are the comma key itself, as `KeyboardEvent.key` values do; for arbitrary strings it fails (a buffer `["ArrowUp,ArrowUp", "ArrowDown", …]` of nine entries joins to the same string), and the contract then states only the joined comparison.
