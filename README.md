# Banking-architecture page behaviour, modelled in Dafny

This project models the deterministic logic in `js/main.js`, the script behind
the banking reference-architecture presentation page. Page elements become
`Dom.Element` objects. Each has a class list (a set), a text, the two inline
style properties the diagram highlighter sets, and an `href` attribute. The
event handlers that change those elements become methods. The lookups and
string handling become functions, with lemmas proved about them.

- `ServiceType` (`getServiceType`): splits a class attribute on single spaces and
  picks the first piece that is not `aws-service`. A missing or empty piece
  gives `unknown`.
- `Navigation`: the mobile-menu handlers, `updateActiveNavLink`, the
  page-navigation click handler, `updateActiveNavOnScroll` and its throttled
  scroll listener.
- `Throttling` (`throttle`): a trace model of the closure flag, plus a class
  for one wrapper. The timer is an explicit "fired" event.
- `Diagram`: the service-detail table behind the modal, the layer panels
  (`toggleLayerDetails`, `getLayerDetails`) and the hover highlighter
  (`highlightRelatedServices`, `clearServiceHighlights`).
- `Metrics`: the text side of `animateMetrics`. It covers the `[0-9.]` filter,
  the NaN test, and how unit markers are placed around each frame's
  formatted number.
- `JsObject`: lookup by key in an object literal, both as JavaScript does it and
  as the tables are meant to work (see Findings).

Where the code and a plain reading of the page's design differ, the model
follows the code:

- At most one navigation link being active is guaranteed only when the
  links' hrefs are distinct. The code marks every link whose href equals the target.
- The scroll spy needs the scroll position to be inside a section's shifted
  range, `top - 150 <= y < top - 150 + height`. Being past the section's
  shifted top is not enough. The last section in document order that
  qualifies wins.
- The last counter frame is rebuilt from the digits and the detected markers.
  It equals the original text only when that text has its markers in the
  order `$`, number, `%`, `ms`, `x`, `K` (`FinalFrameRestoresCanonicalText`).
  "5K%" comes back as "5%K" (`NonCanonicalOrderIsReordered`). Markers are also
  found inside words: "24 Teams" gets an `ms` suffix (`MarkerInsideWord`).
- For "95%" the first frame is "2%" (1.9 rounded), not "0%", because each
  tick adds the increment before formatting (`PercentFrames`).
- Leaving a hovered service clears the inline highlight only on
  `aws-service` elements. A related element without that class, such as a
  `database-connection` element, keeps its highlight
  (`HighlightOutlivesClear`).
- Toggling a layer twice restores its panel's `show` state only once the
  panel exists. The first click on a layer creates the panel and starts its
  reveal.

## Model

| member | source | states |
|---|---|---|
| ServiceType.Split | js/main.js:310 | `split(' ')`: at least one piece, and no piece contains a space |
| ServiceType.JoinSplit | js/main.js:310 | joining the pieces with single spaces gives back the class string |
| ServiceType.SplitJoin | js/main.js:310 | splitting a join of space-free names gives those names back, so the split is the only such cut |
| ServiceType.FirstOtherThan | js/main.js:311 | the index where `find` stops: every earlier piece is the marker, and the piece there is not |
| ServiceType.Find | js/main.js:311 | `find` gives nothing exactly when every piece is `aws-service`; otherwise it gives the first piece that is not the marker |
| ServiceType.GetServiceType | js/main.js:309-312 | the result is never empty and never `aws-service`; it is the first non-marker piece, or `unknown` when there is none or that piece is empty |
| ServiceType.LeadingSpaceIsUnknown | js/main.js:310-311 | a class attribute that starts with a space always gives `unknown` |
| ServiceType.DoubledSpaceIsUnknown | js/main.js:310-311 | `aws-service` followed by two spaces gives `unknown`, whatever follows |
| ServiceType.ServiceTypeOfNames | js/main.js:309-312 | for space-free names joined by single spaces, the result is the first name after the leading markers |
| ServiceType.ServiceTypeOfTypicalElement | js/main.js:309-312 | `"aws-service lambda"` gives `lambda` |
| ServiceType.ServiceTypeOfMarkerOnly | js/main.js:311 | `"aws-service"` alone gives `unknown` |
| ServiceType.ServiceTypeOfEmptyClass | js/main.js:311 | an empty class attribute gives `unknown` |
| JsObject.OwnOrDefault | js/main.js:474-479 | the table's own entry for a listed key; the default for any other key |
| JsObject.LookupOr | js/main.js:474 | the lookup `table[key]`, falling back on a falsy result, as written: the result is an inherited Object.prototype member exactly when the key is an inherited name the table lacks |
| JsObject.LookupOrIsOwnOrDefault | js/main.js:474 | off the inherited names, the lookup as written equals the own-key lookup |
| JsObject.InheritedNameSkipsFallback | js/main.js:474 | on an inherited name the table lacks, the lookup as written does not produce the fallback |
| Dom.Toggled | js/main.js:35-36 | `classList.toggle`: the class is present afterwards exactly when it was absent; no other class changes |
| Dom.Element.Toggle | js/main.js:35-36 | `classList.toggle` replaces the class list by its toggled form |
| Dom.Element.Add | js/main.js:503 | `classList.add` adds the class and keeps the others |
| Dom.Element.Remove | js/main.js:42-43 | `classList.remove` removes the class and keeps the others |
| Dom.ToggledTwice | js/main.js:494 | toggling a class twice restores the class list |
| Navigation.MobileNav.OnHamburgerClick | js/main.js:34-37 | both elements have `active` toggled, and nothing else changes; if they agreed before, they agree after |
| Navigation.MobileNav.OnNavLinkClick | js/main.js:40-45 | both elements lose `active` whatever their state was; other classes are kept |
| Navigation.InitializeMobileNavigation | js/main.js:29-47 | the handlers exist exactly when both the hamburger and the menu were found |
| Navigation.MarkedActive | js/main.js:256-259 | a visited link has `active` exactly when it is the target; its other classes are kept |
| Navigation.UpdateActiveNavLink | js/main.js:254-261 | each link is active exactly when its href equals the target; when the hrefs are distinct, at most one link is active afterwards; nothing else about the links changes |
| Navigation.OnPageNavClick | js/main.js:53-70 | if the target exists, the page scrolls to its top minus 100 and the links are marked for the clicked href; otherwise nothing happens |
| Navigation.InView | js/main.js:271-272 | a section counts as current only at scroll positions from its top minus 150 for its height; a section of no height never does |
| Navigation.SectionHref | js/main.js:264-275 | `#` plus the id of the last section in view; "" exactly when no section is in view |
| Navigation.LastInView | js/main.js:267-275 | the last section in document order whose shifted range contains the scroll position; none exactly when no section does |
| Navigation.CurrentSection | js/main.js:264-275 | the loop yields `#` plus the id of the last section in view, or "" exactly when no section is in view |
| Navigation.UpdateActiveNavOnScroll | js/main.js:263-280 | with no section in view the links are unchanged; otherwise they are marked for the last section in view |
| Navigation.OnWindowScroll | js/main.js:74 | the listener is throttled at 100 ms; it updates the links only when the throttle flag was clear, and leaves the flag set; with no section in view, or with the flag set, the links' classes are unchanged; text and styles never change |
| Throttling.FlagAfter | js/main.js:560-563 | after a non-empty sequence of events the flag is set exactly when the last event was a call |
| Throttling.Runs | js/main.js:560-563 | the function runs at most once per event |
| Throttling.StepAtEnd | js/main.js:557-565 | one more call sets the flag and runs the function exactly when the flag was clear; one more timer event clears the flag |
| Throttling.RunsBoundedByFires | js/main.js:555-566 | over any sequence of events, the function runs at most once more than the number of timer events |
| Throttling.BurstRunsAtMostOnce | js/main.js:560-564 | calls with no timer event between them run the function at most once and leave the flag set |
| Throttling.Throttle.constructor | js/main.js:556 | the flag starts clear and nothing has run |
| Throttling.Throttle.Call | js/main.js:557-565 | the call runs the function exactly when the flag was clear; the flag is set afterwards; calls while it is set are dropped |
| Throttling.Throttle.OnTimer | js/main.js:563 | the timer clears the flag and runs nothing |
| Diagram.GetServiceDetails | js/main.js:385-480 | the stored record for the five known types; for any other type, the fallback with empty feature and use-case lists. An empty feature list means "unknown type", and the reverse holds too |
| Diagram.ServiceTableKeys | js/main.js:386-472 | exactly five service types have stored details |
| Diagram.ServiceDetailsOfConstructor | js/main.js:474 | class `aws-service constructor` yields type `constructor`, for which the lookup as written finds an inherited member, not a record |
| Diagram.ServiceTypeOfConstructor | js/main.js:310-311 | class `aws-service constructor` yields the service type `constructor` |
| Diagram.LayerDescription | js/main.js:511-519 | the stored description for the five layer headings; "Layer details not available" exactly for any other heading |
| Diagram.GetLayerDetails | js/main.js:508-520 | the panel markup is the layer description wrapped in one paragraph |
| Diagram.Layer.constructor | js/main.js:492 | a layer starts with the panel found in its markup, if any, and no reveal pending |
| Diagram.Layer.Toggle | js/main.js:491-506 | an existing panel keeps its identity and has `show` toggled; a layer without a panel gets exactly one new `layer-details` panel with its reveal pending; a layer with no heading throws and nothing changes; an existing panel's text and styles are kept, and a new panel has no href and no inline styles |
| Diagram.Layer.OnRevealTimer | js/main.js:502-504 | the reveal timer adds `show` to the new panel and changes nothing else about it |
| Diagram.Layer.ToggleTwice | js/main.js:493-494 | two clicks on a layer with a panel restore the panel's class list; its text and styles are unchanged |
| Diagram.RelatedClasses | js/main.js:284-291 | the related classes for a type in the hover table; none exactly when the type has no entry |
| Diagram.HighlightRelatedServices | js/main.js:282-300 | exactly the elements carrying a related class get the highlight border and shadow; all others, and all class lists, are unchanged; a type without an entry changes nothing |
| Diagram.HighlightOutlivesClear | js/main.js:282-307 | after hovering a Lambda service and leaving it, a `database-connection` element without `aws-service` still has the highlight border and shadow |
| Diagram.ClearServiceHighlights | js/main.js:302-307 | every `aws-service` element loses its inline border colour and shadow; other elements keep theirs |
| Metrics.DigitFilter | js/main.js:131 | the result holds only digits and dots, each taken from the input |
| Metrics.DigitFilterAppend | js/main.js:131 | the filter works piece by piece: filtering a concatenation concatenates the filtered parts, so order is kept |
| Metrics.DigitFilterKeeps | js/main.js:131 | a string of digits and dots passes unchanged |
| Metrics.DigitFilterDrops | js/main.js:131 | a string without digits or dots is removed entirely |
| Metrics.DigitFilterIdempotent | js/main.js:131 | filtering twice is filtering once |
| Metrics.DigitFilterCounts | js/main.js:131 | each digit and dot keeps its number of occurrences; every other character disappears |
| Metrics.ParsesAsNumber | js/main.js:131-133 | for a string of digits and dots, `parseFloat` is a number when it starts with a digit, and only when a digit comes first or second |
| Metrics.Animates | js/main.js:131-133 | the count-up starts only for a text that contains a digit |
| Metrics.DotsBeforeDigitsDoNotAnimate | js/main.js:131-133 | `"..5"` contains a digit but `parseFloat` gives NaN, so nothing happens |
| Metrics.PercentAnimates | js/main.js:131-133 | `"95%"` starts a count-up |
| Metrics.Includes | js/main.js:146-150 | a text never includes a longer pattern, and always includes its own prefix |
| Metrics.IncludesOccurs | js/main.js:146-150 | `includes` finds the pattern exactly when it occurs at some position of the text |
| Metrics.IncludesChar | js/main.js:146-150 | for a one-character pattern, `includes` is membership |
| Metrics.MarkersOf | js/main.js:146-150 | `$`, `%`, `x` and `K` are detected exactly when the text contains that character; `ms` exactly when it occurs anywhere |
| Metrics.Decorate | js/main.js:145-150 | a frame is an optional `$`, then the number, then the detected suffixes in the order `%`, `ms`, `x`, `K` |
| Metrics.DecoratedWith | js/main.js:146-150 | applying the five marker steps in the source's order gives that canonical layout |
| Metrics.FilterCanonical | js/main.js:131 | filtering a canonically decorated number gives the number back |
| Metrics.FilterUndoesDecorate | js/main.js:131-150 | filtering a decorated frame gives back the frame's number |
| Metrics.MarkersOfCanonical | js/main.js:146-150 | the markers detected in a canonically written text are the ones it was written with |
| Metrics.FinalFrameRestoresCanonicalText | js/main.js:139-152 | for a canonically written text whose number formats to itself, the last frame equals the original text |
| Metrics.PercentFrames | js/main.js:145-146 | for `"95%"` the first frame reads `"2%"` (the first tick formats 1.9) and the last `"95%"` |
| Metrics.NonCanonicalOrderIsReordered | js/main.js:145-150 | `"5K%"` ends as `"5%K"` |
| Metrics.TeamsMarkers | js/main.js:146-150 | in `"24 Teams"` only the `ms` marker is detected, found inside the word |
| Metrics.MarkerInsideWord | js/main.js:147 | `"24 Teams"` ends as `"24ms"` |

## Left out

- DOM construction and `innerHTML` templates are presentation only and are not modelled. This covers the service modal (`showServiceDetails`, `createServiceModal`, `closeModal`), copy buttons, the tooltip and progress-bar elements, and the injected stylesheet (`addDynamicStyles`).
- The hover transform and box shadow on the hovered service, and their reset on mouse-leave, are fixed style strings; only the highlight of related elements and the clear of `aws-service` elements are modelled.
- Timers: the modal's 10 ms show and 300 ms close delays, the one-shot escape-key handler, the copy-icon reset and the counter's `setInterval` are not modelled. The layer reveal and the throttle timer are explicit events. Their delays are not modelled.
- Floating point: `parseFloat`'s value, the `/50` increment, `toFixed` and the `% 1` test are not modelled. The progress percentage is not modelled either.
- Metrics.Decorate: the formatted number of each frame is a parameter, because `toFixed` of a floating-point count is not modelled.
- IntersectionObserver, the clipboard API and `execCommand`, Prism, and tooltip mouse coordinates are browser services and are not modelled.
- `window.scrollTo` is not called: `OnPageNavClick` returns the scroll position it would request.
- The `serviceRelationships` table (never read) and the tooltip text table (static data) are not modelled.
- The click handler that calls `showServiceModal` is not modelled, because that function is defined nowhere in the file.
- Navigation.OnPageNavClick: the selector lookup of the target is a parameter (the target's top, or none). An href that is not a valid selector, such as "#", makes `querySelector` throw. That has the same visible effect as a missing target.
- Scroll positions and offsets are integers. Browsers may report a fractional `pageYOffset`.
- An element's class attribute string (read by `getServiceType`) and its class list (changed by the handlers) are modelled separately. Keeping them in sync is the browser's job.
- Throttling.Throttle.Call: the wrapped function's `this` and arguments are not modelled. The method reports whether the function runs, and the caller runs it.
- `querySelectorAll` results are sequences of elements; the page's document order is given, not computed.

## Findings

| source | as written | input that shows it | evidently intended | confidence | as-written member | corrected member |
|---|---|---|---|---|---|---|
| js/main.js:474 | `details[serviceType]`, with a fallback for a falsy result, looks the type up on an object literal, so names inherited from Object.prototype are found too. The same pattern appears at js/main.js:519 and js/main.js:291 | an element with class `aws-service constructor`: the type is `constructor`, `details.constructor` is the Object function, and `createServiceModal` throws at `.features.map` instead of showing the fallback | only the table's own keys are found; every other type gets the fallback record | medium; not executed | JsObject.LookupOr, with JsObject.InheritedNameSkipsFallback and Diagram.ServiceDetailsOfConstructor | JsObject.OwnOrDefault, used by Diagram.GetServiceDetails, Diagram.LayerDescription and Diagram.RelatedClasses |
