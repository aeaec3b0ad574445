# AUHHC portal: the widget state machines and page helpers, in Dafny

This project models the logic of the AUHHC department portal, a React single-page
application. The portal lists a campus's schools and their departments, searches
departments by name, and shows one department with its careers and related departments.
The markup is left aside. What remains is modelled:

- **Widgets.** Five widgets are state machines: the tooltip, the notification toast, the
  progress bar, the collapsible section and the interactive card.
  - Each is a Dafny `class` whose fields are the component's `useState` values.
  - A timer or animation-frame callback that the component schedules becomes a pending
    entry in a field. A method fires that entry.
  - Browser measurements and clock readings are method parameters.
- **Page helpers.** The breadcrumb, home-page, schools-page and department-page helpers are
  pure functions over the catalog records, `School` and `Department`.
  - `getAllDepartments` is the one loop among them. It is a method proved equal to a
    specification function.
  - The department page's notification state is a small class.
- **JavaScript library calls** are modelled where their edge cases matter, in the modules
  `Strings` and `Seqs`:
  - `split` with a one-character separator (`"".split("/")` is `[""]`);
  - `join`, `trim` (the ECMAScript white-space set), `includes`, `filter`, `find`, `slice`
    and `Math.max`.

The scenario methods below (for example `Tooltip.EnterThenLeave` and
`Notification.RunNotification`) each do three things:

1. Create a fresh widget.
2. Drive the widget with a sequence of events, which the scheduler may interleave in
   any order.
3. Prove what every such run observes.

Geometry, easing and percentages are over `real`.

### Behaviour worth knowing

Each item states what the code does; the model does the same:

- **Notification: `onClose` is not exactly-once.** The close path has no guard. If the
  auto-dismiss timer runs and the close button is then clicked, two exit callbacks run and
  `onClose` is called twice (`Notification.TimerThenClick`). Without a click it is called at
  most once (`Notification.TimersOnly`).
- **Notification: any non-positive duration disables auto-dismiss.** A `duration` of zero or
  less arms no timer, not only zero.
- **CollapsibleSection: `"auto"` never comes back.** After any toggle the section never
  returns to `"auto"`. An open section keeps the pixel height measured when it opened.
- **ProgressBar: a hidden bar shows its target.** A bar not yet scrolled into view shows
  `progress` directly, not its initial 0.
- **ProgressBar: `max = 0` is not guarded.** `percentage` divides by `max`. A zero `max` is
  excluded by a precondition, not clamped to 0 %.
- **Schools page: two clicks do not always restore the selection.** Clicking the same school
  card twice restores the prior selection only when that was nothing or this school. A
  different school's selection is lost.
- **Tooltip: a second enter orphans the first timer.** Two pointer enters without a leave
  overwrite the remembered timer handle. The first timer can no longer be cleared, and it
  still shows the tooltip (`Tooltip.EnterTwiceThenLeave`). Two enters without a leave
  between them are a premise of that scenario; whether a browser delivers such a sequence
  is outside the model.

## Model

| member | source | states |
|---|---|---|
| Tooltip.Placement | src/components/Tooltip.jsx:32-54 | for each of `top`, `bottom`, `left` and `right`, the x and y coordinates given by the switch: centred on the trigger along one axis, offset by the tooltip's size plus the 8 px gap along the other; an unknown position stays at `{0, 0}` |
| Tooltip.PlacementClearsTrigger | src/components/Tooltip.jsx:35-51 | for a known position and a tooltip of non-negative size, the placed tooltip does not overlap the trigger (a gap of at least 8 px on some axis), and its edge facing the named side of the trigger is exactly 8 px from that side |
| Tooltip.Tooltip.constructor | src/components/Tooltip.jsx:5-14 | a new tooltip keeps its position and delay, which default to `"top"` and 200 as the props do, is hidden at `{0, 0}`, and has no timer |
| Tooltip.Tooltip.ShowTooltip | src/components/Tooltip.jsx:16-20 | pointer enter schedules one fresh show timer, remembers its handle, and changes neither visibility nor coordinates |
| Tooltip.Tooltip.HideTooltip | src/components/Tooltip.jsx:22-25 | pointer leave clears only the remembered timer and hides the tooltip, whatever its state |
| Tooltip.Tooltip.FireShowTimer | src/components/Tooltip.jsx:17-19 | a pending show timer makes the tooltip visible; a cleared one does nothing |
| Tooltip.Tooltip.PlacementEffect | src/components/Tooltip.jsx:27-58 | coordinates are recomputed by `Placement` only when the tooltip is visible and both rectangles were measured, and are otherwise unchanged |
| Tooltip.EnterThenLeave | src/components/Tooltip.jsx:16-25 | an enter followed by a leave never shows the tooltip, whatever timers then run, and its coordinates stay `{0, 0}` |
| Tooltip.EnterAndWait | src/components/Tooltip.jsx:16-58 | an enter whose timer runs shows the tooltip at `Placement` of the measured rectangles |
| Tooltip.EnterTwiceThenLeave | src/components/Tooltip.jsx:16-25 | after two enters and a leave the tooltip is hidden, but the first, uncleared timer still shows it |
| Tooltip.DefaultTooltip | src/components/Tooltip.jsx:6-38 | a tooltip given no props sits on top after 200 ms, and once shown its bottom edge is 8 px above the trigger |
| Notification.Notification.Render | src/components/Notification.jsx:69-77 | the toast renders nothing exactly when it is hidden, and otherwise shows whether it is exiting |
| Notification.Notification.constructor | src/components/Notification.jsx:3-21 | a new toast keeps its props, whose defaults are kind info, 5000 ms and no `onClose`; it is visible and not exiting, and it arms the auto-dismiss timer exactly when `duration > 0` |
| Notification.Notification.HandleClose | src/components/Notification.jsx:23-29 | closing marks the toast exiting at once and schedules one more exit callback |
| Notification.Notification.FireAutoDismiss | src/components/Notification.jsx:14-17 | a pending auto-dismiss timer takes the close path once; a cleared one does nothing |
| Notification.Notification.FireExit | src/components/Notification.jsx:25-28 | an exit callback hides the toast and calls `onClose` when it is given |
| Notification.Notification.ChangeDuration | src/components/Notification.jsx:13-21 | a new duration clears the old timer and arms a new one exactly when the new duration is positive |
| Notification.Notification.Unmount | src/components/Notification.jsx:19 | the cleanup clears the auto-dismiss timer and leaves scheduled exit callbacks pending |
| Notification.TimersOnly | src/components/Notification.jsx:13-29 | without a click on the close button, `onClose` is called at most once, in any order of timer events |
| Notification.TimerThenClick | src/components/Notification.jsx:15-28 | auto-dismiss followed by a click calls `onClose` twice, and the toast then renders nothing |
| Notification.NoAutoDismiss | src/components/Notification.jsx:14-20 | with `duration <= 0` the toast stays visible and not exiting |
| Notification.RunNotification | src/components/Notification.jsx:10-29 | over any event sequence, exiting never reverts to false, visible never reverts to true, and a hidden toast is always exiting |
| Notification.CloseThenUnmount | src/components/Notification.jsx:19-28 | unmounting after a close still lets the exit callback call `onClose` once, with no auto-dismiss timer left |
| Notification.DefaultNotification | src/components/Notification.jsx:3-28 | a toast given only its message is an info toast with a 5000 ms auto-dismiss timer armed, and its exit calls nothing |
| ProgressBar.ProgressRatio | src/components/ProgressBar.jsx:38-44 | the ratio is at most 1, non-negative for non-negative elapsed time, `elapsed / 1000` below 1, and 1 exactly from 1000 ms on |
| ProgressBar.ProgressRatioMonotone | src/components/ProgressBar.jsx:43-44 | the ratio does not decrease as elapsed time grows |
| ProgressBar.EaseOutCubic | src/components/ProgressBar.jsx:47 | the easing is 0 at 0 and 1 at 1 |
| ProgressBar.EaseOutCubicRange | src/components/ProgressBar.jsx:47 | `1 - (1 - t)^3` lies in [0, 1] on [0, 1] and is below 1 before 1 |
| ProgressBar.EaseOutCubicMonotone | src/components/ProgressBar.jsx:47 | the easing does not decrease on [0, 1] |
| ProgressBar.FrameValue | src/components/ProgressBar.jsx:40-48 | a frame shows the start value 0 when no time has elapsed, and exactly the target from 1000 ms on |
| ProgressBar.FrameValueRange | src/components/ProgressBar.jsx:40-48 | for a non-negative target and elapsed time, a frame shows a value between 0 and the target, and below a positive target before 1000 ms |
| ProgressBar.FrameValueMonotone | src/components/ProgressBar.jsx:43-48 | later frames of one loop show values at least as large |
| ProgressBar.Percentage | src/components/ProgressBar.jsx:60 | with a non-zero max, a shown value of 0 is 0 % and a shown value equal to max is 100 % |
| ProgressBar.PercentageRange | src/components/ProgressBar.jsx:60 | for `0 <= displayProgress <= max` and a positive max, the percentage lies in [0, 100] and is 100 at max |
| ProgressBar.HalfwayExample | src/components/ProgressBar.jsx:38-60 | for a target of 50 with max 100, the bar shows 43.75 % halfway through the animation and 50 % at its end |
| ProgressBar.ProgressBar.constructor | src/components/ProgressBar.jsx:3-13 | a new bar keeps its props, with `max` defaulting to 100 and `animated` to true; it shows 0, is not visible, and has no animation loop |
| ProgressBar.ProgressBar.Intersect | src/components/ProgressBar.jsx:15-30 | an intersecting entry sets the visible flag, and nothing clears it |
| ProgressBar.ProgressBar.SetProgress | src/components/ProgressBar.jsx:4 | a new `progress` prop is stored |
| ProgressBar.ProgressBar.ProgressEffect | src/components/ProgressBar.jsx:32-58 | before visibility or without animation the target is shown at once; otherwise one new loop starts from the current clock reading, and earlier loops are not cancelled |
| ProgressBar.ProgressBar.AnimationFrame | src/components/ProgressBar.jsx:42-55 | a frame shows its loop's eased value and requests another frame exactly while the ratio is below 1 |
| ProgressBar.NeverVisible | src/components/ProgressBar.jsx:33-36 | a bar never scrolled into view shows the latest `progress`, not 0 |
| ProgressBar.AnimateAfterVisible | src/components/ProgressBar.jsx:32-58 | once visible, the shown values across the frames start at 0, stay in [0, target], never decrease, equal the target from 1000 ms on, and stop only after reaching it |
| ProgressBar.DefaultBar | src/components/ProgressBar.jsx:5-58 | a bar given only its progress is out of 100 and animated, so once seen its effect starts one loop toward the target |
| CollapsibleSection.Css | src/components/CollapsibleSection.jsx:11-19 | the collapsed height prints as `"0px"`; a height prints as `"auto"` exactly when it is `Auto`; a pixel height prints as decimal digits that read back as its value, followed by `px` |
| CollapsibleSection.CssInjective | src/components/CollapsibleSection.jsx:11-19 | different heights print as different CSS text |
| CollapsibleSection.CollapsibleSection.constructor | src/components/CollapsibleSection.jsx:6-11 | a new section is open at `"auto"` when `defaultOpen` is set, and closed at `"0px"` otherwise; `defaultOpen` defaults to false |
| CollapsibleSection.CollapsibleSection.Toggle | src/components/CollapsibleSection.jsx:14-22 | a toggle negates `isOpen`, collapses an open section to `"0px"`, opens a closed one to its measured height, never produces `"auto"`, and keeps closed sections at `"0px"` |
| CollapsibleSection.ToggleRepeatedly | src/components/CollapsibleSection.jsx:10-22 | after n toggles the section is open exactly when n's parity and `defaultOpen` disagree; after any toggle it is never `"auto"`, shows the last measurement when open, and shows `"0px"` when closed |
| CollapsibleSection.DefaultSection | src/components/CollapsibleSection.jsx:6-19 | a section given no `defaultOpen` starts closed at `"0px"`, and its first toggle opens it to the measured height |
| InteractiveCard.InteractiveCard.constructor | src/components/InteractiveCard.jsx:7-13 | both flags start false; an absent `onClick` prop means no callback |
| InteractiveCard.InteractiveCard.MouseEnter | src/components/InteractiveCard.jsx:41 | pointer enter sets hover and changes nothing else |
| InteractiveCard.InteractiveCard.MouseLeave | src/components/InteractiveCard.jsx:42 | pointer leave clears hover and changes nothing else |
| InteractiveCard.InteractiveCard.Click | src/components/InteractiveCard.jsx:15-19 | a click sets pressed, schedules exactly one reset, calls `onClick` once when given, and leaves hover alone |
| InteractiveCard.InteractiveCard.FireReset | src/components/InteractiveCard.jsx:17 | a reset clears pressed unconditionally and leaves hover alone |
| InteractiveCard.RunCard | src/components/InteractiveCard.jsx:12-42 | over any events, hover is decided by the last pointer event alone, and `onClick` is called once per click when given |
| InteractiveCard.DefaultCard | src/components/InteractiveCard.jsx:15-19 | a card given no `onClick` is pressed by a click and calls nothing |
| InteractiveCard.DoubleClick | src/components/InteractiveCard.jsx:17 | after two quick clicks, the first reset clears pressed while the second is still pending |
| Breadcrumb.PathSegments | src/components/Breadcrumb.jsx:6 | the segments are the non-empty pieces of the `/`-split, in order, each as many times as it occurs there; none is empty or contains `/` |
| Breadcrumb.RouteTo | src/components/Breadcrumb.jsx:43 | for non-empty, slash-free segments, the route of crumb i splits back into exactly the first i + 1 segments |
| Breadcrumb.CrumbLabel | src/components/Breadcrumb.jsx:8-26 | a non-empty segment gets a non-empty label; away from positions 1 and 3 and the two mapped names, the label is the segment with at most its first letter changed |
| Breadcrumb.RouteExtends | src/components/Breadcrumb.jsx:43 | each crumb route is the previous one extended by `/` and the next segment |
| Breadcrumb.Crumbs | src/components/Breadcrumb.jsx:28-45 | there is no trail exactly when there are no segments; otherwise one crumb per segment, and only the last is marked last |
| Breadcrumb.CrumbLabels | src/components/Breadcrumb.jsx:8-26 | index 1 is "School Details" and index 3 is "Department Details"; elsewhere a label is the mapped name or the capitalised segment |
| Breadcrumb.CrumbRoutesExtend | src/components/Breadcrumb.jsx:42-43 | consecutive crumbs' routes extend one another by one segment |
| Breadcrumb.SegmentsOfRoute | src/components/Breadcrumb.jsx:43 | a route joined from non-empty, slash-free segments splits back into exactly those segments |
| Breadcrumb.LastRouteNormalises | src/components/Breadcrumb.jsx:43-44 | the last crumb's route is the normalised path: it has the same segments and yields the same trail |
| HomePage.EntriesOf | src/HomePage.jsx:12-17 | one entry per department of a school, in order, each with that school's id |
| HomePage.GetAllDepartments | src/HomePage.jsx:9-21 | the nested loops produce exactly the school-by-school flattening `AllDepartments` |
| HomePage.AllDepartments | src/HomePage.jsx:9-21 | the flattening has one entry per department, as many as the schools page's total |
| HomePage.AllDepartmentsAt | src/HomePage.jsx:11-17 | department j of school k is the entry after all entries of the earlier schools, and carries its own name and ids |
| HomePage.Matches | src/HomePage.jsx:27-29 | the matches keep the order of all entries; a match has lower-cased name containing the trimmed, lower-cased query; every such entry is a match, as many times as it occurs; a blank query matches nothing |
| HomePage.BlankSearchMatchesNothing | src/HomePage.jsx:27-29 | an input of white space only yields no matches |
| HomePage.SearchIgnoresCase | src/HomePage.jsx:28 | inputs equal after trimming and lower-casing yield the same matches |
| HomePage.DropdownFor | src/HomePage.jsx:57-75 | the dropdown is closed exactly for an empty input; it lists the matches exactly when the input is non-empty and there are matches; it shows "No departments found" exactly when the input is non-empty and there are none |
| HomePage.WhitespaceShowsNoneFound | src/HomePage.jsx:71-75 | non-empty white-space input shows "No departments found" |
| HomePage.DepartmentRoute | src/HomePage.jsx:62 | with non-empty, slash-free ids, a result's link splits into the segments `schools`, the school id, `departments` and the department id |
| HomePage.ResultBreadcrumb | src/HomePage.jsx:62 | a result's link leads to a four-crumb trail labelled Schools / School Details / Departments / Department Details, whose last route is the link itself |
| HomePage.StatCount | src/HomePage.jsx:31-41 | the departments card counts every department, the schools page's total |
| HomePage.StatsMax | src/HomePage.jsx:106 | the bar's `max` is at least each of the four counts |
| HomePage.SelectedStatWithinMax | src/HomePage.jsx:104-106 | the bar's `max` is one of the four counts and at least 15000; the selected count never exceeds it, so the fill lies in [0, 100] % |
| SchoolsPage.SchoolWithinTotal | src/SchoolsPage.jsx:32 | no school has more departments than the reduced total |
| SchoolsPage.TotalDepartments | src/SchoolsPage.jsx:32 | the total is zero exactly when no school has a department |
| SchoolsPage.Coverage | src/SchoolsPage.jsx:127 | with a positive total, a school with no departments covers 0 % and one holding all of them 100 % |
| SchoolsPage.CoverageRange | src/SchoolsPage.jsx:127-134 | with a positive total, each school's coverage lies in [0, 100] |
| SchoolsPage.CoverageSumIsShare | src/SchoolsPage.jsx:127 | the coverages of any list of schools add up to their share of the total, times 100 |
| SchoolsPage.CoverageSumsToHundred | src/SchoolsPage.jsx:127 | the cards' coverages add up to exactly 100 when there is a department |
| SchoolsPage.OverviewBarFull | src/SchoolsPage.jsx:65-67 | the overview bar, with progress and max both the total, fills to 100 % |
| SchoolsPage.ToggleSelection | src/SchoolsPage.jsx:85 | a click selects this school exactly when it was not selected, and otherwise clears the selection |
| SchoolsPage.ToggleTwice | src/SchoolsPage.jsx:85 | two clicks restore a selection that was nothing or this school, and clear another school's selection |
| SchoolsPage.MoreChip | src/SchoolsPage.jsx:115-117 | the "+n more" chip appears exactly for more than three departments, with n at least 1 |
| SchoolsPage.Preview | src/SchoolsPage.jsx:107 | the preview is the first min(3, n) departments, in order |
| SchoolsPage.PreviewAccountsForAll | src/SchoolsPage.jsx:107-117 | the preview shows the first min(3, n) departments in order; preview plus chip count equal n |
| SchoolsPage.ChipText | src/SchoolsPage.jsx:112 | a chip shows the longest space-free prefix of the name |
| SchoolsPage.IconIndex | src/SchoolsPage.jsx:89 | the icon index is always within the eight icons, and equals the card index below eight |
| DepartmentDetailPage.LookupDepartment | src/DepartmentDetailPage.jsx:31-32 | a found school carries the routed school id and is in the catalog; a found department carries the routed id and is the first department of that school with the id, as `find` returns |
| DepartmentDetailPage.LookupCharacterised | src/DepartmentDetailPage.jsx:31-32 | given the first school with the id, the lookup succeeds exactly when that school has the department, and then returns that school and the first of its departments with the id |
| DepartmentDetailPage.DuplicateIdsFindFirst | src/DepartmentDetailPage.jsx:32 | of two departments sharing an id, the lookup returns the earlier |
| DepartmentDetailPage.LookupNoSchool | src/DepartmentDetailPage.jsx:31-32 | an unknown school id leads to the not-found view |
| DepartmentDetailPage.LookupFindsRouted | src/DepartmentDetailPage.jsx:31-32 | with unique ids, the route of any department finds exactly that school and department |
| DepartmentDetailPage.DetailPage.constructor | src/DepartmentDetailPage.jsx:18-23 | the page starts loading, with a hidden, empty notification of kind info |
| DepartmentDetailPage.DetailPage.View | src/DepartmentDetailPage.jsx:70-89 | the spinner shows exactly while loading, "Department not found" exactly after a failed lookup, and otherwise the found department |
| DepartmentDetailPage.DetailPage.Load | src/DepartmentDetailPage.jsx:26-46 | loading ends with the lookup stored; a found department shows a success notification that welcomes to it; a missing one leaves the notification as it was |
| DepartmentDetailPage.DetailPage.Bookmark | src/DepartmentDetailPage.jsx:64-68 | bookmarking shows the fixed success message |
| DepartmentDetailPage.DetailPage.Share | src/DepartmentDetailPage.jsx:48-62 | without the native share sheet, an info notification says the link was copied; with it, the page state is unchanged |
| DepartmentDetailPage.DetailPage.NotificationClosed | src/DepartmentDetailPage.jsx:101 | the notification's `onClose` hides it |
| DepartmentDetailPage.OpenPage | src/DepartmentDetailPage.jsx:26-46 | the page shows the routed department with its welcome exactly when the lookup succeeds, and otherwise shows not-found with no notification |
| DepartmentDetailPage.WelcomeThenBookmark | src/DepartmentDetailPage.jsx:97-103 | the welcome toast, mounted with 3000 ms and `onClose`, hides itself after its timers; a later bookmark shows it again with the bookmark message |
| DepartmentDetailPage.WelcomeMessage | src/DepartmentDetailPage.jsx:39 | the welcome text contains the department's name |
| DepartmentDetailPage.Careers | src/DepartmentDetailPage.jsx:91 | a missing career list counts as empty, and a given one is used as it is |
| DepartmentDetailPage.CareerBarMax | src/DepartmentDetailPage.jsx:219 | the bar's `max` is the larger of the career count and 10 |
| DepartmentDetailPage.CareerBarFill | src/DepartmentDetailPage.jsx:217-219 | the career bar fills to 10 % per career below ten careers, and to 100 % from ten on |
| DepartmentDetailPage.RelatedDepartments | src/DepartmentDetailPage.jsx:247-249 | at most four related departments, none with the current id, in school order; when fewer than four are listed, every other department is listed as many times as the school holds it |
| DepartmentDetailPage.RelatedAreFirst | src/DepartmentDetailPage.jsx:247-249 | with distinct ids, the list is the first four other departments: it never shows one while skipping an earlier one that qualifies |
| DepartmentDetailPage.RelatedSummary | src/DepartmentDetailPage.jsx:263 | a related card has a career summary exactly when that department lists careers |
| DepartmentDetailPage.RelatedSummaryShape | src/DepartmentDetailPage.jsx:263 | a related card lists the first two careers comma-separated, the only one, or nothing |
| DepartmentDetailPage.Initial | src/DepartmentDetailPage.jsx:178 | one word contributes its first letter, or nothing when it is empty |
| DepartmentDetailPage.Initials | src/DepartmentDetailPage.jsx:178 | for any head, the initials are the first letters of the non-empty space-separated words, in order, so extra spaces add nothing; at most one letter per word |
| DepartmentDetailPage.JoinInitials | src/DepartmentDetailPage.jsx:178 | joining the words' first letters with no separator equals the first letters of the non-empty words: an empty word contributes nothing |
| DepartmentDetailPage.InitialsOfName | src/DepartmentDetailPage.jsx:178 | a head name of words joined by single spaces shows each word's first letter, in order |
| DepartmentDetailPage.HeadInitials | src/DepartmentDetailPage.jsx:175-178 | the head card appears exactly when a non-empty head is given |

## Left out

- Rendering: all JSX markup, Tailwind class strings and the variant, colour and position
  class tables, including the notification's `position` prop. They are static
  presentation.
- Browser APIs:
  - `IntersectionObserver` is an `Intersect` call with the entry's `isIntersecting` flag.
    The observer's 0.1 threshold decides that flag in the browser and is not modelled.
  - `requestAnimationFrame` is a pending frame entry.
  - A `Date.now` reading is a `now` parameter.
  - `getBoundingClientRect` and `scrollHeight` are rectangle and height parameters.
  - An element not yet mounted is a `None` rectangle.
- Real timers: time does not pass in the model. A scheduled callback is a pending entry,
  and the scheduler may run any pending entry at any point, which covers every
  interleaving. The tooltip's show delay and the toast's duration are stored. The toast's
  300 ms exit delay and the card's 200 ms reset delay are not represented at all: each is
  just a pending entry. No proof depends on a delay's length, only on the sign of the
  duration. The simulated
  load delays (1000 ms on the schools page, 600 ms on the department page) are not
  modelled.
- Floating point: geometry, easing and percentages are over exact reals. `Math.round` of
  the shown percentages is not modelled.
- ProgressBar.Percentage: `max = 0`, where JavaScript yields `Infinity` or `NaN`, is
  excluded by `requires max != 0.0`.
- SchoolsPage.Coverage: a zero total, where the card shows `NaN%`, is excluded by
  `requires total > 0`; `SchoolsPage.TotalDepartments` says when that total is zero.
- Case mapping: `toLowerCase` and `toUpperCase` map ASCII letters only. Other characters
  pass through unchanged.
- Breadcrumb.CrumbLabel: the label map is a plain object. A segment such as
  `constructor` would hit an inherited property. The model maps only the two listed keys.
- Tooltip.Rect: `right` and `bottom` are derived from `left + width` and `top + height`.
  They are not independent measurements.
- Notification.Notification.Render: a `type` other than the four known ones makes
  `typeConfig[type]` undefined (src/components/Notification.jsx:67), and reading
  `config.icon` (src/components/Notification.jsx:82) then throws during render. The model's
  `Kind` has only the four cases, so that crash is not represented.
- Props fixed at construction: the tooltip's `position` and `delay`, the progress bar's
  `max` and `animated`, the card's `onClick` and the section's `defaultOpen` are set when
  the widget is constructed. A parent re-rendering with changed props is not modelled.
- Notification: the message and kind are fixed per toast. A toast kept mounted while the
  page swaps its message is not modelled.
- The department page's async load effect (src/DepartmentDetailPage.jsx:26-46) becomes a
  single `Load` step. The schools page's load effect and its `isLoading` flag
  (src/SchoolsPage.jsx:19-30) are not modelled: its helpers take the loaded catalog as a
  parameter.
- The share call: `navigator.share` and `navigator.clipboard` are foreign calls. Which one
  is available is a parameter of `Share`. The call itself is not modelled.
- DepartmentDetailPage.DetailPage.Share: the fallback assumes `navigator.clipboard`
  exists (src/DepartmentDetailPage.jsx:57). Where neither it nor `navigator.share` is
  available, the call throws and the copied-link toast is never shown; the model always
  shows it on the fallback path.
- Strings: a Dafny `string` is a sequence of Unicode scalar values, while JavaScript
  strings are UTF-16 code units. For characters outside the Basic Multilingual Plane,
  `n[0]` in the initials and `charAt(0)` in the crumb labels take half a surrogate pair in
  the browser, but the whole character in the model.
- `AnimatedCounter`, `LoadingSpinner` and `schools.json` are not part of this model. The
  catalog records keep only the fields the modelled code reads.
- src/App.js (theme persistence and router wiring), src/components/NavBar.jsx (rendering
  and one pathname comparison) and src/DepartmentsPage.jsx (rendering, a simulated load,
  and the same `find` and icon rotation modelled above) are not modelled.
