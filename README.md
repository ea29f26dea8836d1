# Birthday page effects: the logic of script.js

`script.js` drives the decorative effects of a static birthday page. Most of it
is DOM styling. This project models the three parts that make decisions:

- **The mobile spotlight** (`updateVisiblePhoto`, module `Spotlight`,
  `spotlight.dfy`). It only runs on touch devices. It finds the photo card
  whose vertical centre is nearest to the viewport's centre, using one
  strict-`<` scan that starts from `Infinity`. It then clears `show-caption` on
  every card and sets it on that card. Cards are an `array<Rect>` of
  `(top, height)` reals. The caption classes are an `array<bool>` of the same
  length. `isTouchDevice` and `window.innerHeight` are parameters.
- **Frame coalescing** (the `scroll` and `mousemove` listeners, module
  `FrameScheduling`, `frame_guard.dfy`). Each source has one flag
  (`scrollScheduled`, `mouseScheduled`). An event registers an
  animation-frame callback only when the flag is clear, then sets it. The
  callback clears the flag. The mouse callback returns early when the page has
  no `.hero` element, so it never clears its flag. Class `FrameGuard` holds a
  flag plus the number of its callbacks waiting for a frame. The pure
  functions `AfterNotify`/`AfterFrame`/`Replay` specify it. The lemmas beside
  them cover bursts of events, the one-pending-callback invariant, and the
  scroll/mouse asymmetry.
- **The like button** (`toggleLike`, module `Like`, `like_button.dfy`). Class
  `LikeButton` holds the `liked` class and the heart icon's text, or `None`
  when the button has no `.heart-icon` child.

Unlike the scroll callback, the mouse callback returns before clearing
`mouseScheduled` when the page has no `.hero` element (script.js:168). From
then on every `mousemove` is ignored. The client methods
`FrameScheduling.TenScrollEventsOneUpdate` (ten scroll events before a frame
run one update, and the next event schedules again) and
`FrameScheduling.MouseWithoutHeroWedges` (a hero-less mouse update leaves the
flag set) exercise the class on these two cases.

## Model

| member | source | states |
|---|---|---|
| Spotlight.Distance | script.js:259-260 | the card's distance is non-negative; it is zero exactly when the card's centre `top + height/2` is the viewport centre `innerHeight/2`; it is one of the two signed differences |
| Spotlight.NearestUnique | script.js:255-265 | at most one card is the first card of minimal distance, so the selection is deterministic |
| Spotlight.ClosestCard | script.js:253-266 | the scan leaves `closestCard` empty exactly when there are no cards; otherwise it picks a card whose distance is at most every card's distance and strictly below every earlier card's distance; no other index has that property |
| Spotlight.OnlyOneShown | script.js:269-272 | caption flags set at exactly one position count as exactly one shown caption |
| Spotlight.UpdateVisiblePhoto | script.js:247-273 | off touch devices (line 248) or with no cards (line 251) no flag changes; otherwise a card shows its caption exactly when it is the first nearest card, every other flag is cleared whatever it was before, and exactly one caption is shown |
| Spotlight.MiddleCardScenario | script.js:253-266 | with centres 100, 300 and 500 and viewport centre 310, the card centred at 300 is selected |
| Spotlight.TieScenario | script.js:262-265 | of two cards at equal distance 50, the first is selected and the second is not |
| FrameScheduling.FrameGuard.constructor | script.js:137 | a source starts with its flag clear and nothing queued (the same holds at script.js:163) |
| FrameScheduling.FrameGuard.Notify | script.js:138-160 | with the flag clear, an event registers exactly one callback and sets the flag; with the flag set, it changes nothing (the `mousemove` listener at script.js:164-185 does the same) |
| FrameScheduling.FrameGuard.Callback | script.js:166-181 | the scroll callback always clears its flag (script.js:156); the mouse callback clears it only when `.hero` exists, and returns before the reset otherwise (line 168); it runs only inside a frame, once the callback has left the queue, and keeps the guard's invariant |
| FrameScheduling.FrameGuard.RunFrame | script.js:140-157 | a frame runs at most one pending callback of the source; afterwards nothing is queued, and the flag is set only if the mouse callback found no `.hero` |
| FrameScheduling.BurstCoalesces | script.js:138-160 | any number `n >= 1` of events between two frames has the same effect as the first event alone |
| FrameScheduling.BurstRunsOnce | script.js:138-160 | from rest, `n >= 1` events leave exactly one callback for the next frame; for scroll, that frame returns the source to rest |
| FrameScheduling.CoherentKept | script.js:138-185 | over any sequence of events and frames, at most one callback per source is pending, and a pending callback implies the flag is set |
| FrameScheduling.ScrollRearms | script.js:139-158 | the scroll flag is set exactly while its callback is pending; after any frame the flag is clear, and the next scroll event schedules again |
| FrameScheduling.MouseSticksWithoutHero | script.js:165-183 | while no frame finds `.hero`, a set mouse flag stays set, and no later event registers another callback |
| FrameScheduling.MouseWedged | script.js:166-183 | once a mouse callback has returned early (flag set, nothing queued), every later sequence of events and frames, including frames that find `.hero`, leaves that state unchanged: the source is locked for good |
| FrameScheduling.MouseWithHeroLikeScroll | script.js:165-183 | while every frame finds `.hero`, the mouse source behaves exactly like the scroll source |
| Like.HeartIcon | script.js:100-106 | the icon is the red heart exactly when liked, and the white heart exactly when not |
| Like.HeartIconInjective | script.js:100-106 | two like states get the same icon exactly when they are equal |
| Like.LikeButton.constructor | script.js:96-97 | a button starts with the `liked` state and the (possibly absent) `.heart-icon` text the markup gives it |
| Like.LikeButton.ToggleLike | script.js:96-107 | the `liked` class is negated; with a heart icon, the icon then matches the new state; without one (line 97 yields `null`), the text assignment throws and nothing else changes |
| Like.ToggleTwice | script.js:96-107 | toggling twice restores `liked`; an existing icon is left matching it, and unchanged if it already matched; a missing icon stays missing |

## Left out

- Layout: `getBoundingClientRect` and `window.innerHeight` are given as exact reals. Floating-point rounding, `NaN` and infinite rectangles are not modelled.
- Touch detection (script.js:244-245) is the parameter `isTouchDevice`, fixed for the page's lifetime.
- The wiring of `updateVisiblePhoto` to `scroll`, `resize`, `load` and the 450 ms settle delay after the call-to-action click (script.js:275-284) is event registration and a timer, so it is not modelled.
- The parallax and pointer-offset arithmetic inside the frame callbacks (script.js:141-154, 170-179) sets CSS transforms and holds no invariant. Only the flag discipline around it is modelled. The `.hero` lookup is the `heroPresent` parameter of a frame.
- The browser's animation-frame queue is abstracted to a per-source count of pending callbacks. Ordering between sources and page teardown are not modelled.
- `createFloatingHeart` (script.js:110-134), which `toggleLike` calls when a photo becomes liked, is a Web Animations effect. The model records no floating heart, and the TypeError thrown for a button without a heart icon is only the `threw` result: the caller's reaction to the exception is not modelled.
- Particle creation (script.js:9-28) uses `Math.random` and only sets CSS strings.
- Fade-in staggering, the `IntersectionObserver` callbacks and the message-text timers (script.js:31-82, 287-302) are observer and timer plumbing with no decision logic.
- `scrollToSection` (script.js:85-93), the button ripple (script.js:188-217) and the injected keyframes (script.js:220-229, 305-312) are cosmetic calls into browser APIs.
