# Catalog filter of a portfolio site, in Dafny

The site (`src/Site.jsx`) is a single React page. Its only logic beyond
layout is the filter shared by the Projects and Blog sections:

- the **tag vocabulary**: the distinct tags of a section's catalog, sorted,
  shown as filter buttons;
- the **tag toggle**: a tag button adds the tag to the selection array, or
  removes every occurrence of it;
- the **AND filter**: a project is listed when it carries every selected
  tag (no selection lists the whole catalog); a post is listed when its
  lower-cased title and excerpt contain the lower-cased search query and it
  carries every selected tag; both keep catalog order;
- the **view state**: selected tags and lightbox (Projects), query and
  selected tags (Blog), changed by the toggle, "All", "Reset", search input,
  and the lightbox's Open and Close buttons;
- **`formatNumber`**: a compact count label ("999", "2K", "2M").

Files, one module each:

- `seqs.dfy` (`Seqs`): the array operations the site uses — `filter`,
  `flatMap`, deduplication through a `Set` — with subsequence, membership and
  multiplicity lemmas.
- `order.dfy` (`Order`): lexicographic string order, proved a strict total
  order, and the sort: sorting distinct strings gives an ascending
  permutation, and an ascending sequence is determined by its members.
- `text.dfy` (`Text`): ASCII lower-casing and substring search (`includes`).
- `catalog.dfy` (`Catalog`): item records, vocabulary, toggle, the project
  and post filters, and their properties.
- `view.dfy` (`View`): the two sections' state as classes `ProjectsView` and
  `BlogView`. Each method's contract gives the whole new state in terms of the
  old one, and keeps the invariant that the selection has no duplicate.
- `format.dfy` (`NumberFormat`): `formatNumber` over natural numbers, with a
  decimal reader to state what the label means.
- `site.dfy` (`Site`): the two catalogs the site hard-codes, and the buttons
  and lists the filter produces for them.

Behaviour of the code worth noting:

- The selection is an array, not a set. Toggling twice restores which tags
  are selected. The exact array is guaranteed back only when the tag started
  out unselected; a selected tag comes back at the end
  (`Catalog.ToggleTwicePresent`).
- The Blog section has no reading overlay: "Read More" is a plain link. Only
  the Projects lightbox is modelled.
- "Open" takes the project itself, not an id, so there is no unknown-id
  case to guard against.
- The project filter returns the catalog itself for an empty selection.
  `Catalog.FilterProjectsShortcut` proves that this shortcut agrees with the
  filter.

## Model

| member | source | states |
|---|---|---|
| Catalog.VocabularySpec | src/Site.jsx:282 | deduplicating and sorting a tag list gives a strictly ascending list, so one without duplicates, whose members are exactly the tags of the list |
| Catalog.ProjectTagsSpec | src/Site.jsx:282 | the Projects buttons are strictly ascending, hold no duplicate, are exactly the tags some project carries, and are the only ascending list with those members |
| Catalog.PostTagsSpec | src/Site.jsx:497 | the same for the Blog buttons and the posts' tags |
| Order.SortSpec | src/Site.jsx:282 | sorting distinct strings yields an ascending permutation of them |
| Order.AscendingUnique | src/Site.jsx:282 | two ascending lists with the same members are equal, so the sorted vocabulary is determined by the set of tags |
| Order.LessTotal | src/Site.jsx:282 | the string order used by the sort relates any two distinct strings |
| Catalog.ToggleSpec | src/Site.jsx:291-293 | an unselected tag is appended; a selected tag has every occurrence removed, the rest keeping its order and multiplicity; the tag's membership flips and no other tag's changes |
| Catalog.ToggleNoDup | src/Site.jsx:292 | toggling keeps a duplicate-free selection duplicate-free |
| Catalog.ToggleTwiceMembers | src/Site.jsx:292 | toggling the same tag twice restores which tags are selected |
| Catalog.ToggleTwiceAbsent | src/Site.jsx:510 | toggling an unselected tag twice restores the exact selection |
| Catalog.ToggleTwicePresent | src/Site.jsx:510 | in a duplicate-free selection, toggling a selected tag twice gives the other tags in their order followed by the tag |
| Catalog.ToggleTwiceReorders | src/Site.jsx:510 | toggling a selected tag twice can change the order: ["IoT", "ML"] becomes ["ML", "IoT"] |
| Catalog.RemoveOne | src/Site.jsx:292 | removing a selected tag from a duplicate-free selection takes away exactly one element |
| Catalog.ToggleLength | src/Site.jsx:292 | on a duplicate-free selection a toggle adds or removes exactly one tag |
| Catalog.HasAllTagsMonotone | src/Site.jsx:288 | an item carrying every tag of a larger selection carries every tag of a smaller one |
| Catalog.FilterProjectsSpec | src/Site.jsx:286-289 | no selection gives the catalog unchanged; otherwise the result is the subsequence of projects carrying every selected tag, with their multiplicity |
| Catalog.FilterProjectsShortcut | src/Site.jsx:287 | the empty-selection shortcut returns what the tag filter would |
| Catalog.FilterProjectsBySet | src/Site.jsx:288 | the result depends only on which tags are selected, not on their order or repetition |
| Catalog.FilterProjectsMonotone | src/Site.jsx:288 | selecting more tags gives a subsequence of the previous result, never a longer one |
| Catalog.FilterProjectsToggle | src/Site.jsx:286-293 | toggling a tag on narrows the list to a subsequence; toggling it off widens it |
| Catalog.FilterProjectsUnknownTag | src/Site.jsx:286-289 | selecting a tag no project carries gives the empty list |
| Catalog.FilterPostsSpec | src/Site.jsx:501-507 | a post is listed iff its lower-cased title, a space and its excerpt contain the lower-cased query and it carries every selected tag; posts keep order and multiplicity |
| Catalog.FilterPostsUnfiltered | src/Site.jsx:501-507 | an empty query with no tag selected lists every post in order |
| Catalog.FilterPostsCaseInsensitive | src/Site.jsx:503 | queries that lower-case alike list the same posts |
| Catalog.FilterPostsQueryNarrows | src/Site.jsx:503 | extending the query gives a subsequence of the previous list |
| Catalog.FilterPostsMonotone | src/Site.jsx:504 | selecting more tags gives a subsequence of the previous list, never a longer one |
| Catalog.FilterPostsUnknownTag | src/Site.jsx:504 | selecting a tag no post carries gives the empty list, whatever the query |
| Text.ContainsAt | src/Site.jsx:503 | the substring test holds exactly when the query occurs at some index of the text |
| Text.ContainsPrefix | src/Site.jsx:503 | text containing a + b contains a |
| Text.LowerSpec | src/Site.jsx:503 | lower-casing keeps the length and works character by character: 'A'..'Z' become the letters of the same rank in 'a'..'z', every other character is unchanged, and no upper-case letter remains |
| View.ProjectsView.constructor | src/Site.jsx:283-284 | the section starts with no tag selected and the lightbox closed, listing the whole catalog |
| View.ProjectsView.AllTags | src/Site.jsx:282 | the buttons are ascending, hold no duplicate, and are exactly the tags some project carries |
| View.ProjectsView.ToggleTag | src/Site.jsx:291-293 | the selection becomes its toggle and grows or shrinks by exactly one tag, the lightbox is unchanged, and the list narrows or widens accordingly |
| View.ProjectsView.ShowAll | src/Site.jsx:301 | "All" empties the selection and lists the whole catalog; the lightbox is unchanged |
| View.ProjectsView.Open | src/Site.jsx:327 | the lightbox shows the project's media and title, replacing what it showed; the selection is unchanged |
| View.ProjectsView.Close | src/Site.jsx:338 | the lightbox is closed; the selection is unchanged |
| View.BlogView.constructor | src/Site.jsx:498-499 | the section starts with an empty query and no tag selected, listing every post |
| View.BlogView.SetQuery | src/Site.jsx:518 | typing replaces the query and keeps the selection |
| View.BlogView.AllTags | src/Site.jsx:497 | the buttons are ascending, hold no duplicate, and are exactly the tags some post carries |
| View.BlogView.ToggleTag | src/Site.jsx:509-511 | the selection becomes its toggle and grows or shrinks by exactly one tag, the query is unchanged, and the list narrows or widens accordingly |
| View.BlogView.ShowAll | src/Site.jsx:523 | "All" empties the selection and keeps the query |
| View.BlogView.Reset | src/Site.jsx:519 | "Reset" empties both the query and the selection and lists every post |
| NumberFormat.NatToStringSpec | src/Site.jsx:663 | the decimal text of n is a numeral without leading zero that reads back as n |
| NumberFormat.NatToStringInjective | src/Site.jsx:663 | distinct numbers get distinct decimal texts |
| NumberFormat.FormatNumberSpec | src/Site.jsx:662-664 | below 1000 the label reads back as n; below a million it is k followed by "K" with 1000k - 500 <= n < 1000k + 500; otherwise k followed by "M" with the same bounds for millions |
| NumberFormat.FormatNumberExamples | src/Site.jsx:669-677 | the eight asserted labels: 999, 1K, 2K, 1M, 2M, 0, 42, 2M |
| NumberFormat.FormatNumberThousandK | src/Site.jsx:663 | every n from 999 500 to 999 999 is labelled "1000K", as the code is written |
| Site.ProjectButtons | src/Site.jsx:274-282 | the Projects buttons are C++, Control, Embedded, IoT, ML, Python, Robotics, Stm32, Vision |
| Site.PostButtons | src/Site.jsx:491-497 | the Blog buttons are Audio, Control, Embedded, IoT, ML, Robotics |
| Site.ProjectScenarios | src/Site.jsx:274-289 | no tag lists all four projects, "ML" the two ML projects, "ML" and "Embedded" only the keyword spotter, "Audio" none |
| Site.PidPostMatches | src/Site.jsx:492-503 | the PID post matches the query "PID": its lower-cased title holds "pid" |
| Site.PidQuery | src/Site.jsx:501-507 | in any catalog holding the PID post, the query "PID" lists that post, and lists the same posts as "pid" |
| Site.AudioTag | src/Site.jsx:491-507 | with an empty query, selecting "Audio" lists only the TinyML post |

## Left out

- Rendering, styling and animation (JSX layout, Tailwind classes, motion components, the scroll bar, tilt cards, the hero spotlight): presentation only.
- Media asset URLs built from the build-time base path: an environment lookup. Media sources are kept as opaque optional strings.
- The guard flag and console output around the `formatNumber` assertions: the asserted values are lemmas instead.
- Locale date formatting, the current year, the contact and subscribe forms, the navigation menu and the static skills, academics and timeline lists: presentation or environment-dependent.
- `src/main.jsx` (mounting the page) and `vite.config.js` (build configuration) are not part of this model.
- Text.Lower: lower-cases ASCII letters only; full Unicode case mapping is not modelled.
- Order.Less: compares `char` values lexicographically; JavaScript's sort compares UTF-16 code units, which differs only for characters outside the Basic Multilingual Plane.
- NumberFormat.FormatNumber: takes a natural number; negative, fractional and non-finite inputs, and floating-point rounding above 2^53, are not modelled.
- React's re-rendering and memoization: `Filtered()` and `AllTags()` are recomputed on read.
- The lightbox holds at most one item by construction, since its state is a single optional value; the escape key has no handler in the code, so only the Close button closes it.
