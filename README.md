# A verified model of the jyotishmiraclef client logic

This project models the deterministic logic inside the client of a small
consultation-booking and "My Remedies" lookup site. It leaves out the DOM
wiring and the REST calls around that logic. Each source file of the core
has its own Dafny module:

- `Calculations` (+ `CalculationsExamples`), from `js/utils/calculations.js`: functions and lemmas for the `MMDDYY` date-of-birth interpreter (`calculateAge`, `formatDOB`, `validateDOB`), with JavaScript's `Date` roll-over written out as a proleptic Gregorian calendar.
- `Validation`, from `public/phase1/js/utils/validation.js`: predicates for the sanitiser and the validators, and a method that builds the error map key by key.
- `Router`, from `js/utils/router.js`: class `Router`, with a route table (`seq`), `currentRoute` and `location.hash` fields, first-match lookup over exact and `:param` patterns.
- `Hero`, `About`, `Testimonials` (+ shared `Slides`), from the three carousel components: classes whose "active" flags are `array<bool>`; the interval is a handle, and a set records which handles are still scheduled.
- `Storage`, from `public/phase1/js/utils/storage.js`: class `SessionStore` (`sessionStorage` as a `map`), plus pure record selection and list guards.
- `Records`, shared by the next three modules: the customer record with both generations of remedy fields. Its string properties tell an absent value from `null`, because templates and inputs print the two differently.
- `Dashboard`, from `js/components/admin/AdminDashboard.js`: remedy counts, totals, table rows, and class `AdminDashboard`.
- `Modal`, from `js/components/remedies/RemediesModal.js`: remedy normalisation, the age line, and class `RemediesModal`.
- `App` (+ `Uri`), from `js/app.js`: the `openFromURL` deep-link decision, with `decodeURIComponent` written out.
- `AdminApp`, from `public/phase1/js/admin-app.js`: the customer-form payload, the edit-form filling and the password guards, plus class `AdminPage` for the page's handlers.
- `JsString`, `Wrappers`: the JavaScript string primitives these files rely on (`trim`, `parseInt`, number-to-string, `padStart`, `toLowerCase` on ASCII), and `Option`/`Outcome`.

Some inputs are passed in as parameters:
- The clock is a `today: Date` parameter.
- Every backend call is a function from its argument to an `Outcome`, either a returned value or a thrown error.
- Handlers registered on buttons are methods that a click calls.

Three places where the code and the documented design of the birth-date
interpreter disagree. The model follows the code in each:
- The suffix `50` resolves to 2050, not 2000. The test is `> 50`, so 50 takes the `'20'` branch, and `'20' + '50'` is 2050 (`CalculationsExamples.CenturyBoundary`).
- `calculateAge` does not reject month 13 or day 32. `new Date` rolls them into the next month or year, and only a `NaN` field makes the result `null` (`Calculations.CalculateAgeRejects`, `CalculationsExamples.MonthThirteenRollsOver`).
- `calculateAge` does not reject non-digit input either. `parseInt` reads a leading number. An unparseable year suffix becomes the year 20, through the string `"20NaN"` (`Calculations.CenturyYear`).

## Model

| member | source | states |
|---|---|---|
| `Calculations.CenturyYear` | js/utils/calculations.js:18-20 | suffix 51..99 gives 1900+YY; suffix 0..50 gives 2000+YY; a `NaN` or negative suffix gives 20 |
| `Calculations.CenturyTextValue` | js/utils/calculations.js:18-20 | the string `'19'/'20' + String(suffix).padStart(2,'0')` parses back to that year, including `"20NaN"` → 20 |
| `Calculations.CenturyYearResolves` | js/utils/calculations.js:18-20 | the string-built year equals the arithmetic century rule `ResolvedYear` |
| `Calculations.ParseDob` | js/utils/calculations.js:11-20 | absent unless the length is 6 characters (code points; see Left out); a parsed year is at least 20 |
| `Calculations.CalculateAge` | js/utils/calculations.js:10-47 | `null` when the length is not 6 characters (code points; see Left out); otherwise the birth date is a real calendar date and `year` is its year |
| `Calculations.CalculateAgeOfFields` | js/utils/calculations.js:13-47 | `calculateAge` is the date half applied to the parsed fields |
| `Calculations.CalculateAgeRejects` | js/utils/calculations.js:11-26 | for an input of 6 characters (code points; see Left out), `null` iff the month or day field is unparseable; range errors are never rejected |
| `Calculations.AgeIsCompletedYears` | js/utils/calculations.js:28-33 | `age` is the number of completed years: the age-th anniversary is not after today, and the next one is |
| `Calculations.AgeOnBefore` | js/utils/calculations.js:28-33 | age = today.year − birth.year, minus 1 exactly when today's (month, day) precedes the birthday |
| `Calculations.ZodiacAlwaysDefined` | js/utils/calculations.js:36-45 | every non-null result has a defined zodiac label |
| `Calculations.ZodiacSignDefined` | js/utils/calculations.js:36-45 | for years from 4 on, the label is `table[(year − 4) mod 12]` |
| `Calculations.ZodiacCycle` | js/utils/calculations.js:36-45 | years twelve apart share a label |
| `Calculations.CalculateAgeOfValidCode` | js/utils/calculations.js:13-45 | for six digits naming a real date: that birth date, `year` = the century-resolved year, label `table[(year−4) mod 12]`, and age by whether this year's birthday has come |
| `Calculations.AgeFromValid` | js/utils/calculations.js:22-45 | for a real date with a four-digit year, the date is not rolled and the result is age, year, sign, date (`AgeFrom`, the date half of `CalculateAge`) |
| `Calculations.ParseFields` | js/utils/calculations.js:13-15 | the three two-digit fields of an all-digit code parse as their decimal values, the suffix at most 99 |
| `Calculations.ParseDobOfCode` | js/utils/calculations.js:13-20 | an all-digit code parses into its month, day and century-resolved year |
| `Calculations.RollDaysDayNumber` | js/utils/calculations.js:22 | rolling an out-of-range day never changes the day number: the date is `d − 1` days after the first of the month (ECMAScript MakeDay) |
| `Calculations.MakeDateDayNumber` | js/utils/calculations.js:22 | `new Date(y, m, d)` carries whole years of the month index into the year, then counts `d − 1` days |
| `Calculations.RollDaysValid` | js/utils/calculations.js:22 | a day that exists in its month is not rolled |
| `Calculations.MakeDateOfValid` | js/utils/calculations.js:22 | `new Date(y, m − 1, d)` of a real date with a four-digit year is that date |
| `Calculations.YearLength` | js/utils/calculations.js:22 | the calendar's year has 366 days exactly in leap years, 365 otherwise |
| `Calculations.MonthsFillYear` | js/utils/calculations.js:22 | the twelve month lengths add up to the year's length |
| `Calculations.FormatDOBPassThrough` | js/utils/calculations.js:54-66 | the input is returned unchanged when its length is not 6 characters (code points; see Left out) or the month parses outside 1..12 (`FormatDOB`) |
| `Calculations.FormatDOBOfValidCode` | js/utils/calculations.js:56-68 | a six-digit code with month 1..12 shows as "<MonthName> <day without leading zero>, 19<YY>" (`FormatDOB`) |
| `Calculations.FormatDOBParsed` | js/utils/calculations.js:65-68 | once the month and day parse, the display is month name, day, and "19" before the suffix |
| `Calculations.FormatDOBShowsWrongCentury` | js/utils/calculations.js:68 | for a suffix of 50 or less, the display shows a year one century before the one `calculateAge` uses |
| `Calculations.NineteenBeforeSuffix` | js/utils/calculations.js:68 | "19" before a suffix of 50 or less reads as the code's year minus 100 |
| `Calculations.FormatDOBResolvedOfValidCode` | js/utils/calculations.js:53-68 | the corrected display shows the month name, the day and the century-resolved year (`FormatDOBResolved`) |
| `Calculations.FormatDOBResolvedAgreesWithAge` | js/utils/calculations.js:68 | the corrected display names the year `calculateAge` uses, and that year parses back from the text |
| `Calculations.ValidateDOBMeaning` | js/utils/calculations.js:74-85 | accepted iff exactly six digits, month 1..12 and day 1..31, whatever the month's real length (`ValidateDOB`) |
| `Calculations.ValidatedCodeHasAge` | js/utils/calculations.js:74-85 | whatever `validateDOB` accepts, `calculateAge` gives a non-null result for |
| `CalculationsExamples.MonthThirteenRollsOver` | js/utils/calculations.js:22-44 | the fields of "131599" give year 2000, birth date 2000-01-15, and the sign of 1999 (Rabbit) |
| `CalculationsExamples.ExampleHorse` | js/utils/calculations.js:28-45 | "021590" on 2024-06-15 gives age 34, year 1990, Horse |
| `CalculationsExamples.CenturyBoundary` | js/utils/calculations.js:18-20 | suffix 50 → 2050, 51 → 1951, 00 → 2000 |
| `CalculationsExamples.ZodiacExamples` | js/utils/calculations.js:36-45 | 1990 is Horse and 2000 is Dragon |
| `CalculationsExamples.ValidateDOBExamples` | js/utils/calculations.js:74-85 | "023199" and "021590" are accepted, "131599" is refused |
| `CalculationsExamples.Fields131599` | js/utils/calculations.js:13-20 | "131599" parses to month 13, day 15, year 1999 |
| `CalculationsExamples.Fields021590` | js/utils/calculations.js:13-20 | "021590" parses to month 2, day 15, year 1990 |
| `Validation.SanitizeInput` | public/phase1/js/utils/validation.js:11-14 | a non-string gives ''; the output has no '<' or '>' and is never longer than the input |
| `Validation.RemoveAngles` | public/phase1/js/utils/validation.js:13 | the result has no angle brackets and is shorter by exactly their count |
| `Validation.RemoveAnglesAppend` | public/phase1/js/utils/validation.js:13 | deletion acts piece by piece on a concatenation |
| `Validation.RemoveAnglesKeeps` | public/phase1/js/utils/validation.js:13 | a string without angle brackets is unchanged |
| `Validation.SanitizeExposesSpace` | public/phase1/js/utils/validation.js:13 | trim runs before deletion, so "< a" sanitises to " a", which begins with a space |
| `Validation.SanitizeStable` | public/phase1/js/utils/validation.js:11-14 | sanitising again changes nothing once the first result has no surrounding white space |
| `Validation.EmailMeaning` | public/phase1/js/utils/validation.js:19-22 | accepted iff no white space, exactly one '@' with something before it, and a '.' after it that is neither the first nor the last character of the domain (`ValidateEmail`) |
| `Validation.DigitsOnly` | public/phase1/js/utils/validation.js:29 | the result is all digits and no longer than the input |
| `Validation.DigitsOnlyAppend` | public/phase1/js/utils/validation.js:29 | removing non-digits acts piece by piece |
| `Validation.MobileIgnoresSeparators` | public/phase1/js/utils/validation.js:29 | the verdict depends only on the digits |
| `Validation.MobileMeaning` | public/phase1/js/utils/validation.js:27-30 | a digit string is accepted iff it has 10 digits and the first is 6..9 (`ValidateMobile`) |
| `Validation.MobileCountryCode` | public/phase1/js/utils/validation.js:28-29 | a number given with a two-digit country code (12 digits) is refused |
| `Validation.CustomerIdIgnoresCase` | public/phase1/js/utils/validation.js:36 | the id check is case-insensitive (`ValidateCustomerId`) |
| `Validation.SanitizeKeepsCustomerId` | public/phase1/js/utils/validation.js:36 | an id that `validateCustomerId` accepts (4..10 ASCII letters or digits) is unchanged by `sanitizeInput` |
| `Validation.NoteError` | public/phase1/js/utils/validation.js:45-71 | one guarded assignment sets its key exactly when the field fails and leaves every other key alone |
| `Validation.EmptyIffNoKey` | public/phase1/js/utils/validation.js:73-74 | the error map is empty iff none of the seven keys is present |
| `Validation.ValidateConsultationForm` | public/phase1/js/utils/validation.js:42-77 | each key is present iff its field rule fails, each with its own message; `isValid` iff the map is empty iff every field passes |
| `Router.FindRoute` | js/utils/router.js:37-45 | the first registered route whose path matches, in registration order; none iff no route matches |
| `Router.CurrentPath` | js/utils/router.js:36 | the route path read from the hash is never empty, so an empty hash reads as '/' rather than '' |
| `Router.NavigateThenRead` | js/utils/router.js:59-61 | navigating to a path and reading the route back gives the fragment the hash setter stored: the path itself when it holds no character the setter escapes or drops, and otherwise text that `decodeURIComponent` turns back into the path, provided the path has no `%` of its own |
| `Router.FragmentEncodePlain` | js/utils/router.js:59-61 | the hash setter stores a path with no character of the fragment percent-encode set (WHATWG URL Standard) and no tab or line break unchanged (`FragmentEncode`) |
| `Router.FragmentDecodes` | js/utils/router.js:59-61 | for a path with no `%`, tab or line break, `decodeURIComponent` of what the setter stores is the path |
| `Router.NavigateEscapesSpace` | js/utils/router.js:59-61 | navigating to `/a b` reads back as `/a%20b` |
| `Router.NoColonMatchesOnlyItself` | js/utils/router.js:38-44 | a path with no ':' matches only by string equality |
| `Router.ParamRoute` | js/utils/router.js:40-43 | `prefix:name suffix` matches exactly the hashes that start with prefix, end with suffix, and hold a non-empty run without '/' between them (`RouteMatches`, by `PatternMatch` over the pattern `Tokenize` builds) |
| `Router.LitsMatchExactly` | js/utils/router.js:41 | a pattern of literal characters matches only its own text |
| `Router.ParamThenLits` | js/utils/router.js:41 | a group followed by literal text matches a non-empty run without '/' followed by that text |
| `Router.TokenizeNoColon` | js/utils/router.js:41 | a path without ':' becomes a pattern of literal characters |
| `Router.ParamPathTokens` | js/utils/router.js:41 | each `:name` becomes one group; every other character stays literal (`Tokenize`) |
| `Router.Router.constructor` | js/utils/router.js:7-22 | an empty table, no current route and no handler fired; the `handleRoute` run by `init` finds no route and sets the hash to '/' |
| `Router.Router.Route` | js/utils/router.js:27-30 | the entry is appended at the end of the table, the router is returned, and nothing else changes |
| `Router.Router.HandleRoute` | js/utils/router.js:35-54 | on a match, the current route becomes the path and that route's handler runs once; with no match, the hash goes to '/', the current route is unchanged and no handler runs |
| `Router.Router.Navigate` | js/utils/router.js:59-61 | only the hash changes, to what the setter stores for `path`: one leading `#` dropped, tabs and line breaks removed, C0 controls, space, `"`, `<`, `>`, `` ` ``, DEL and non-ASCII written as UTF-8 escapes (`NavigatedHash`) |
| `Router.Router.GetCurrentRoute` | js/utils/router.js:66-68 | the current route, or '/' while it is unset or empty; never empty |
| `Slides.ShowOnly` | js/components/hero/HeroCarousel.js:62-71 | after clearing every flag and setting flag i where it exists, the flags are one-hot at i |
| `Slides.OneHotCount` | js/components/hero/HeroCarousel.js:62-67 | exactly one flag is active for an index in range, and none otherwise |
| `Slides.NextIndex` | js/components/hero/HeroCarousel.js:77 | `(cur + 1) % n` is always in [0, n) |
| `Slides.PrevIndex` | js/components/hero/HeroCarousel.js:82 | `(cur − 1 + n) % n` is always in [0, n) |
| `Slides.WrapAround` | js/components/hero/HeroCarousel.js:76-84 | next wraps from the last slide to the first; prev wraps the other way |
| `Slides.NextPrevInverse` | js/components/hero/HeroCarousel.js:76-84 | prev after next, and next after prev, restore the index |
| `Slides.StepsFromOutOfRange` | js/components/hero/HeroCarousel.js:76-84 | from an out-of-range index, next and prev land where they would from `cur mod n` |
| `Hero.HeroCarousel.constructor` | js/components/hero/HeroCarousel.js:7-58 | with no slides, nothing is installed and no interval starts; otherwise slide 0 is shown and exactly one interval runs |
| `Hero.HeroCarousel.ShowSlide` | js/components/hero/HeroCarousel.js:60-74 | only slide i and indicator i are active where they exist; `currentSlide` becomes i, even out of range |
| `Hero.HeroCarousel.NextSlide` | js/components/hero/HeroCarousel.js:76-79 | moves to `(cur + 1) mod n` and shows it |
| `Hero.HeroCarousel.PrevSlide` | js/components/hero/HeroCarousel.js:81-84 | moves to `(cur − 1 + n) mod n` and shows it |
| `Hero.HeroCarousel.Start` | js/components/hero/HeroCarousel.js:86-88 | a fresh handle is scheduled and held; an old held handle is overwritten but stays scheduled |
| `Hero.HeroCarousel.Pause` | js/components/hero/HeroCarousel.js:90-95 | the held handle is unscheduled and set to null; with no handle, nothing changes |
| `Hero.HeroCarousel.ResetInterval` | js/components/hero/HeroCarousel.js:97-100 | the held handle is unscheduled and exactly one fresh handle replaces it |
| `Hero.HeroCarousel.ClickNext` | js/components/hero/HeroCarousel.js:27-32 | moves to `(cur + 1) mod n` with that slide and indicator alone active; the held handle is unscheduled and exactly one fresh handle replaces it |
| `Hero.HeroCarousel.ClickPrev` | js/components/hero/HeroCarousel.js:34-39 | moves to `(cur − 1 + n) mod n` with that slide and indicator alone active; the held handle is unscheduled and exactly one fresh handle replaces it |
| `Hero.HeroCarousel.ClickIndicator` | js/components/hero/HeroCarousel.js:42-47 | slide k and indicator k alone are active; the held handle is unscheduled and exactly one fresh handle replaces it |
| `Hero.HeroCarousel.MouseEnter` | js/components/hero/HeroCarousel.js:51 | pauses |
| `Hero.HeroCarousel.MouseLeave` | js/components/hero/HeroCarousel.js:52 | starts without pausing, so two leaves leave two intervals scheduled |
| `Hero.HeroCarousel.Tick` | js/components/hero/HeroCarousel.js:87 | a scheduled interval firing moves to the next slide, with that slide and indicator alone active |
| `About.AboutCarousel.constructor` | public/phase1/js/components/services/AboutCarousel.js:16-48 | with no slides, no handler is installed and no flag changes; otherwise profile 0 is shown |
| `About.AboutCarousel.ShowProfile` | public/phase1/js/components/services/AboutCarousel.js:50-62 | only slide i and dot i are active where they exist; `currentProfile` becomes i |
| `About.AboutCarousel.ClickNext` | public/phase1/js/components/services/AboutCarousel.js:25-30 | moves to `(cur + 1) mod n` |
| `About.AboutCarousel.ClickPrev` | public/phase1/js/components/services/AboutCarousel.js:32-37 | moves to `(cur − 1 + n) mod n` |
| `About.AboutCarousel.ClickDot` | public/phase1/js/components/services/AboutCarousel.js:40-44 | calls `showProfile(k)`, even when there are more dots than slides |
| `Testimonials.TestimonialSlider.constructor` | js/components/services/TestimonialSlider.js:15-32 | with no slides, `init` returns at once; otherwise testimonial 0 is shown and one interval runs |
| `Testimonials.TestimonialSlider.ShowTestimonial` | js/components/services/TestimonialSlider.js:34-46 | only slide i and indicator i are active; `currentSlide` becomes i |
| `Testimonials.TestimonialSlider.NextTestimonial` | js/components/services/TestimonialSlider.js:48-51 | moves to `(cur + 1) mod n` |
| `Testimonials.TestimonialSlider.Start` | js/components/services/TestimonialSlider.js:53-55 | a fresh handle is scheduled and held |
| `Testimonials.TestimonialSlider.ResetInterval` | js/components/services/TestimonialSlider.js:57-62 | any held handle is cleared before a fresh one starts |
| `Testimonials.TestimonialSlider.ClickIndicator` | js/components/services/TestimonialSlider.js:22-27 | shows testimonial k, then resets the interval |
| `Testimonials.TestimonialSlider.Tick` | js/components/services/TestimonialSlider.js:54 | a scheduled interval firing moves to the next testimonial, with that slide and indicator alone active |
| `Storage.SessionStore.GetItem` | public/phase1/js/utils/storage.js:10-12 | present iff the key is stored, with its stored value |
| `Storage.SessionStore.SetItem` | public/phase1/js/utils/storage.js:16 | the key maps to the value; every other key is kept |
| `Storage.SessionStore.RemoveItem` | public/phase1/js/utils/storage.js:18-19 | the key is gone; every other key is kept |
| `Storage.SessionStore.SetAdminLoggedIn` | public/phase1/js/utils/storage.js:10-21 | logging in writes the username only when it is truthy and never touches the token, so `IsAdminLoggedIn` cannot change; logging out removes both keys, leaving the admin logged out |
| `Storage.FirstMatch` | public/phase1/js/utils/storage.js:40 | the first record whose `customerId` or `_id` equals the id; none iff no record matches |
| `Storage.SelectCustomer` | public/phase1/js/utils/storage.js:40-41 | the first exact match, else the first record, else null; null iff the list is empty |
| `Storage.FindCustomerById` | public/phase1/js/utils/storage.js:35-42 | null for a falsy id; a thrown lookup rethrows; null for a non-array result; otherwise the selection rule |
| `Storage.FindWithoutIdIgnoresBackend` | public/phase1/js/utils/storage.js:36 | a falsy id never reaches the backend |
| `Storage.SearchCustomers` | public/phase1/js/utils/storage.js:72-76 | [] for a falsy query without a lookup; a non-array result becomes [] |
| `Storage.GetRemediesDatabase` | public/phase1/js/utils/storage.js:29-32 | an array result is returned as it is; anything else becomes [] |
| `Storage.RetryWithResolvedId` | public/phase1/js/utils/storage.js:50-70 | a direct call that succeeds is the answer; on failure the record is looked up and the call retried with its `_id`; with no record found, the original error is rethrown |
| `Storage.DirectSuccessSkipsLookup` | public/phase1/js/utils/storage.js:51-53 | when the direct call succeeds, no lookup is made |
| `Storage.RetryUsesRecordId` | public/phase1/js/utils/storage.js:54-59 | after a failed direct call, the retry targets the `_id` of the first matching record |
| `Storage.GetAdminCredentials` | public/phase1/js/utils/storage.js:85-87 | always null |
| `Storage.UpdateAdminPassword` | public/phase1/js/utils/storage.js:89-91 | always throws its not-implemented error |
| `Records.ArrayOrEmpty` | public/phase1/js/utils/storage.js:31 | `Array.isArray(list) ? list : []` |
| `Records.Or` | js/components/admin/AdminDashboard.js:151 | `p \|\| q`: p when it is truthy, q otherwise |
| `Records.PropTexts` | public/phase1/js/admin-app.js:208-211 | a template prints an absent property as "undefined" and `null` as "null"; an input shows "undefined" for an absent one, and is left empty exactly by `null` and `""` |
| `Records.KeepFilled` | js/components/admin/AdminDashboard.js:110 | every kept entry is non-blank and is one of the list's entries; the result is never longer than the list |
| `Records.KeepFilledAppend` | js/components/admin/AdminDashboard.js:110 | the filter distributes over concatenation |
| `Records.KeepFilledKeepsAllIff` | js/components/admin/AdminDashboard.js:104-110 | the filter keeps every entry iff every entry is filled |
| `Records.KeepFilledAll` | js/components/remedies/RemediesModal.js:134-143 | a list with no blank entry passes the filter whole |
| `Dashboard.DashboardRemedies` | js/components/admin/AdminDashboard.js:104-110 | a present `remedies` list is used unfiltered; otherwise the legacy five with blank entries removed |
| `Dashboard.RemedyCountRule` | js/components/admin/AdminDashboard.js:104-111 | a listed record counts its whole list; a legacy record counts 0..5, and 5 iff all five are filled (`RemedyCount`) |
| `Dashboard.TotalRemediesAppend` | js/components/admin/AdminDashboard.js:103-112 | the total over two lists joined is the sum of their totals (`TotalRemedies`) |
| `Dashboard.TotalRemediesCons` | js/components/admin/AdminDashboard.js:103-112 | each record adds its own count to the total once |
| `Dashboard.TotalRemediesLegacyBound` | js/components/admin/AdminDashboard.js:103-112 | with only legacy records, the total is at most 5 per record |
| `Dashboard.StatsOf` | js/components/admin/AdminDashboard.js:100-112 | `totalCustomers` is the number of records; the remedy total is 0 for no records |
| `Dashboard.CountLabelMisspelt` | js/components/admin/AdminDashboard.js:154 | for any count other than 1, the label ends in "Remedyies" (`CountLabel`) |
| `Dashboard.CountLabelIntendedMeaning` | js/components/admin/AdminDashboard.js:154 | the corrected label starts with the count, which `parseInt` reads back, and is singular exactly for 1 (`CountLabelIntended`) |
| `Dashboard.EscapeQuotes` | js/components/admin/AdminDashboard.js:158 | the escaped text is longer than the id by exactly its number of single quotes |
| `Dashboard.EscapeQuotesReadsBack` | js/components/admin/AdminDashboard.js:158-161 | an id with no backslash, line break, `"` or `&` reaches the handler intact through both the attribute parse and the string literal |
| `Dashboard.EscapeQuotesLiteral` | js/components/admin/AdminDashboard.js:158-161 | the string-literal layer alone: with no backslash and no line break, the escaped body reads back as the id |
| `Dashboard.EscapeQuotesLosesBackslash` | js/components/admin/AdminDashboard.js:158-161 | `a\n` (a, backslash, n) reaches the handler as `a` followed by a newline; `a\` breaks the literal |
| `Dashboard.EscapeQuotesCutsAttribute` | js/components/admin/AdminDashboard.js:158-161 | an id holding `"` ends the `onclick` attribute early, so the handler is never called |
| `Dashboard.EscapeQuotesDecodesAmpersand` | js/components/admin/AdminDashboard.js:158-161 | the id `&amp;` reaches the handler as `&` |
| `Dashboard.EscapeForQuotedReadsBack` | js/components/admin/AdminDashboard.js:158-161 | with backslashes and line breaks escaped as well (`EscapeForQuoted`), every id reads back from the string literal (`ReadQuoted`) |
| `Dashboard.HtmlEscapeReadsBack` | js/components/admin/AdminDashboard.js:158-161 | writing `&` as `&amp;` and `"` as `&quot;` is undone by the attribute parse |
| `Dashboard.EscapeForOnclickReadsBack` | js/components/admin/AdminDashboard.js:158-161 | with the literal escaping followed by the attribute escaping, every id reaches the handler unchanged |
| `Dashboard.RowOf` | js/components/admin/AdminDashboard.js:137-167 | the row's count is the record's remedy count; the cells print absent properties as "undefined" and `null` ones as "null"; the name falls back to `customerName`; edit and delete both act on `customerId \|\| ''` |
| `Dashboard.ButtonId` | js/components/admin/AdminDashboard.js:158-183 | the id both buttons forward is empty iff `customerId` is falsy, and is otherwise that customer id; the `_id` the delete button also passes is dropped by `confirmDeleteCustomer` |
| `Dashboard.TableFor` | js/components/admin/AdminDashboard.js:126-168 | the placeholder row iff the list is empty; otherwise one row per record, in order |
| `Dashboard.RowsAddUpToTotal` | js/components/admin/AdminDashboard.js:103-146 | the rows' counts add up to the remedies counter |
| `Dashboard.AdminDashboard.constructor` | js/components/admin/AdminDashboard.js:18-39 | a visitor who is not logged in is redirected and nothing else happens; otherwise the counters show the empty list |
| `Dashboard.AdminDashboard.UpdateStats` | js/components/admin/AdminDashboard.js:100-119 | the counters show the count and total of the held list |
| `Dashboard.AdminDashboard.RenderCustomersTable` | js/components/admin/AdminDashboard.js:121-135 | nothing without a table body; otherwise the argument unless it is null, else the held list |
| `Dashboard.AdminDashboard.LoadAndRender` | js/components/admin/AdminDashboard.js:41-53 | holds an array response, [] for a non-array response or a failure, then redraws the table and counters |
| `Modal.ModalRemedies` | js/components/remedies/RemediesModal.js:134-143 | a non-empty `remedies` is preferred, else the legacy five; the blank-entry filter covers both branches |
| `Modal.NormalisationRulesCompared` | js/components/remedies/RemediesModal.js:134-143 | an empty list counts as none on the dashboard but falls back to the legacy fields here; blank list entries are dropped here but counted there; a legacy-only record reads the same in both |
| `Modal.FilledListsAgree` | js/components/remedies/RemediesModal.js:134-143 | a non-empty list of filled entries reads the same in both places |
| `Modal.AgeTextMeaning` | js/components/remedies/RemediesModal.js:129-132 | 'N/A' iff there is no age; otherwise the text starts with the age, which `parseInt` reads back (`AgeText`) |
| `Modal.ListingOf` | js/components/remedies/RemediesModal.js:166-175 | the "No remedies assigned yet" text iff the list is empty; otherwise the remedies numbered from 1, in order |
| `Modal.PanelOf` | js/components/remedies/RemediesModal.js:126-178 | the id, name and DOB lines print the properties as a template does (absent as "undefined", `null` as "null"), the name falling back to `customerName`; the age line comes from `calculateAge` of the dob; the listing from the normalised remedies |
| `Modal.AgeOf` | js/components/remedies/RemediesModal.js:129 | no age for an absent or `null` DOB; otherwise `calculateAge` of it |
| `Modal.LookupResultOf` | js/components/remedies/RemediesModal.js:104-123 | the first record of a non-empty array is shown; an empty or non-array result gives the not-found text; a thrown error gives the server text |
| `Modal.RemediesModal.constructor` | js/components/remedies/RemediesModal.js:11-43 | the button is wired only when both the modal and the button exist; the modal starts closed |
| `Modal.RemediesModal.ShowLoginForm` | js/components/remedies/RemediesModal.js:45-73 | a fresh empty form with the error hidden, when there is a body |
| `Modal.RemediesModal.ClickMyRemedies` | js/components/remedies/RemediesModal.js:27-32 | shows the login form, opens the modal and hides the page's overflow |
| `Modal.RemediesModal.HandleLogin` | js/components/remedies/RemediesModal.js:97-124 | looks up the trimmed input; a found record replaces the form with its panel; otherwise the form shows the matching error |
| `Modal.RemediesModal.ShowDashboard` | js/components/remedies/RemediesModal.js:126-178 | the body shows the record's panel |
| `Modal.RemediesModal.Open` | js/components/remedies/RemediesModal.js:79-95 | opens with a fresh form; with a truthy id, fills the input with the trimmed id and runs the lookup |
| `Modal.RemediesModal.Close` | js/components/remedies/RemediesModal.js:180-185 | removes `modal--open` when there is a modal, and always resets the overflow |
| `App.FirstKey` | js/app.js:49 | the leftmost position where `customerId=` (any case) is followed by a character other than '&' |
| `App.FirstSep` | js/app.js:49 | the leftmost ':' or '=' followed by a character of `[A-Za-z0-9-_]` |
| `App.AmpEnd` | js/app.js:49 | the greedy `[^&]+` run stops at the next '&' or the end |
| `App.IdEnd` | js/app.js:49 | the greedy `[A-Za-z0-9-_]+` run stops at the first other character |
| `App.HashCapture` | js/app.js:49 | none iff neither pattern matches; a capture is never empty, and one taken by the separator pattern holds only `[A-Za-z0-9-_]` |
| `App.HashCustomerId` | js/app.js:49-50 | the capture, URI-decoded; throws iff decoding fails |
| `App.SeparatorCaptureIsPlain` | js/app.js:49-50 | a separator-pattern capture decodes to itself |
| `App.CustomerIdFrom` | js/app.js:47-51 | a non-empty `customerId` query parameter wins without the hash being read |
| `App.OpenFromURL` | js/app.js:34-59 | opens with no id iff the lowercased hash contains "remedies" or view=remedies; otherwise opens with a non-empty id when one is found; a decode error opens nothing (the hint is `Hinted`) |
| `App.OpenFromURLIntended` | js/app.js:46-55 | the corrected decision: an id found anywhere opens with that id, and the hint alone opens with no id |
| `App.IntendedAgreesWhenUnhinted` | js/app.js:40-55 | the two decisions differ exactly on hinted links that also carry an id |
| `App.KeyedLinkCarriesId` | js/app.js:49-50 | a `customerId=` key followed by an encoded id yields exactly that id |
| `App.ExampleLinkCarriesId` | js/app.js:48-50 | the example link `#myRemedies?customerId=<id>` carries the id, readable back |
| `App.ExampleLinkLosesId` | js/app.js:41-48 | as written, the example link opens the modal with no id |
| `App.ExampleLinkOpensWithId` | js/app.js:48 | under the corrected decision, the example link opens with its id |
| `App.Page.Apply` | js/app.js:42-55 | carries out `open()`, `open(cid)` or nothing |
| `Uri.DecodeEncode` | js/app.js:50 | `decodeURIComponent(encodeURIComponent(s)) == s` (`DecodeURIComponent` of `EncodeURIComponent`) |
| `Uri.DecodeWithoutPercent` | js/app.js:50 | a string without '%' decodes to itself |
| `Uri.DecodeRejectsBarePercent` | js/app.js:50-58 | a '%' not followed by two hex digits throws, and the deep link opens nothing |
| `Uri.EncodeURIComponent` | js/app.js:50 | the encoding holds no '&', so a query value never ends early, and is at least as long as the input |
| `AdminApp.PayloadRemedies` | public/phase1/js/admin-app.js:292-298 | never more remedies than slots; every remedy sent is non-empty and already trimmed |
| `AdminApp.PayloadRemediesTrimsFilled` | public/phase1/js/admin-app.js:292-298 | the payload's remedies are the filled slots, each trimmed |
| `AdminApp.SaveRequest` | public/phase1/js/admin-app.js:258-331 | no request unless the trimmed DOB is six ASCII digits; an update of `editId` iff it is non-empty, otherwise a create; the text fields are sent trimmed (`DobFormatOk`) |
| `AdminApp.SavedRemediesBounded` | public/phase1/js/admin-app.js:292-321 | at most five saved remedies, none empty, in slot order |
| `AdminApp.SaveAlert` | public/phase1/js/admin-app.js:302-330 | the success or failure alert for the update or create |
| `AdminApp.FirstWithCustomerId` | public/phase1/js/admin-app.js:195 | the first record whose `customerId` equals the id |
| `AdminApp.EditRecord` | public/phase1/js/admin-app.js:192-202 | the exact `customerId` match of a non-empty list, else its first record; with nothing listed, the pending promise with no fields |
| `AdminApp.EditPickAgreesWithLookup` | public/phase1/js/admin-app.js:195 | where no `_id` equals the id, the edit pick equals the storage selection |
| `AdminApp.EditForm` | public/phase1/js/admin-app.js:206-218 | five slots, from `remedies` when present, else from the legacy fields; the hidden id is `_id` when truthy, else `customerId` as an input shows it (absent → "undefined", `null` → ""); the name is `name \|\| customerName` likewise; the DOB is `dob \|\| ''` |
| `AdminApp.EditSaveTarget` | public/phase1/js/admin-app.js:206-331 | saving an edited record updates it by a truthy `_id`, else by a truthy customer id; a `null` or empty customer id makes the save a create, an absent one an update of "undefined" |
| `AdminApp.SlotsOf` | public/phase1/js/admin-app.js:213-218 | slot k is element k, or '' when it is missing |
| `AdminApp.SlotsRoundTrip` | public/phase1/js/admin-app.js:213-218 | filling the slots and saving them back gives the first five filled entries, trimmed |
| `AdminApp.PendingPromiseForm` | public/phase1/js/admin-app.js:200-212 | a form opened from the pending promise shows "undefined" as its id and cannot be saved as it is; once a valid DOB is typed, saving it updates the record "undefined" |
| `AdminApp.EditSaveKeepsShownRemedies` | public/phase1/js/admin-app.js:213-298 | for a legacy record or a list of one to five entries, edit then save keeps the remedies the customer panel shows; a record with an empty list saves none, though the panel shows its legacy fields |
| `AdminApp.PasswordCheck` | public/phase1/js/admin-app.js:124-136 | a mismatch is rejected first, then a password under 6 units; the request is attempted iff both checks pass |
| `AdminApp.PasswordLengthInUnits` | public/phase1/js/admin-app.js:131 | for characters in the Basic Multilingual Plane, the length guard counts characters |
| `AdminApp.AdminPage.ShowDashboard` | public/phase1/js/admin-app.js:164-176 | the dashboard replaces the login box, and a stored username is greeted |
| `AdminApp.AdminPage.HideDashboard` | public/phase1/js/admin-app.js:178-183 | the login box replaces the dashboard, with the error hidden |
| `AdminApp.AdminPage.Start` | public/phase1/js/admin-app.js:384-391 | the dashboard is shown iff a token is stored; then the dashboard exists, a stored username is greeted and the login error is untouched; otherwise the error is hidden and the greeting and dashboard are untouched |
| `AdminApp.AdminPage.Login` | public/phase1/js/admin-app.js:37-58 | a truthy token is stored with the trimmed username, the dashboard is created and shown, a non-empty username greeted, and the admin is logged in; otherwise only the error shows and the storage, views, greeting and dashboard are untouched |
| `AdminApp.AdminPage.ChangePassword` | public/phase1/js/admin-app.js:119-157 | the first failing guard's message; once both guards pass, the failure of the missing `changePassword` |
| `AdminApp.AdminPage.AddCustomer` | public/phase1/js/admin-app.js:238-244 | an empty form with no record id, the id input unlocked, the modal open |
| `AdminApp.AdminPage.CloseCustomerModal` | public/phase1/js/admin-app.js:246-256 | the modal closes and the visible inputs are reset |
| `AdminApp.AdminPage.EditCustomer` | public/phase1/js/admin-app.js:188-222 | the form is filled from the chosen record, the id input locked, the modal opened |
| `AdminApp.AdminPage.SubmitCustomer` | public/phase1/js/admin-app.js:258-344 | a bad DOB alerts and changes nothing else; otherwise one request is sent, its outcome alerted, and the form closed and reset |
| `AdminApp.AdminPage.ConfirmDeleteCustomer` | public/phase1/js/admin-app.js:224-228 | the id is remembered and the delete modal opens |
| `AdminApp.AdminPage.CloseDeleteModal` | public/phase1/js/admin-app.js:353-359 | the delete modal closes |
| `AdminApp.AdminPage.ConfirmDelete` | public/phase1/js/admin-app.js:361-379 | with a remembered id, one delete is sent and its outcome alerted; without one, nothing happens |

## Left out

- Network I/O: the REST clients are not part of this model. Each backend call is a function parameter that returns a value or throws.
- DOM rendering: the markup and CSS classes are reduced to the values they show (lists, counts, labels, strings, one-hot flags). `alert` becomes a list of texts, and `scrollIntoView` is dropped.
- The export in `AdminDashboard.exportData` (a Blob download) is left out. It is file I/O with no logic beyond `JSON.stringify`.
- `AdminDashboard.setupSearch` is left out. It passes the raw `listRemedies(query)` answer to `renderCustomersTable`. A `null` answer renders the held list (`customers ?? this.customers ?? []`). Any other answer that is not an array makes `.map` throw inside the `try`. The `catch` then calls `searchCustomers(query)`, which queries `listRemedies(query)` again. It renders that second answer when it is an array, and `[]` otherwise. A failing second query is an unhandled rejection. `RenderCustomersTable` takes a list or `null` and cannot express this retry path.
- The clock: `new Date()` is the `today` parameter. The local time zone is not modelled; `Date` is treated as a calendar date.
- Timers: `setInterval` is a fresh handle and `clearInterval` removes it from the scheduled set. Time passing is only the `Tick` method; the 5-second period is not modelled.
- `Calculations.CalculateAge`, `Calculations.FormatDOB` and `Calculations.ValidateDOB` take a string. A `null` or `undefined` argument is not modelled; the empty string stands for the falsy case.
- `Calculations.CalculateAge`: a string is a sequence of code points here, while `.length` and `substring` count UTF-16 units. An input holding a character above U+FFFF is not modelled as the source handles it. `"011😀9"` is 6 units, so the source accepts its length, but the model rejects it.
- `Calculations.ParseDob`: the same code-point length and field cuts as `CalculateAge`; inputs with a character above U+FFFF are not modelled.
- `Calculations.CalculateAgeRejects`: states the rule for inputs of 6 code points, which agree with 6 UTF-16 units only when every character is at most U+FFFF.
- `Calculations.FormatDOB`: the same code-point length and cuts as `CalculateAge`; an input with a character above U+FFFF is not modelled.
- `Calculations.FormatDOBPassThrough`: passes through inputs whose code-point length is not 6, which is the source's rule only for characters up to U+FFFF.
- `Calculations.CalculateAge`: years outside ECMAScript's `Date` range (±100,000,000 days) cannot arise from a two-digit suffix, so `Invalid Date` is modelled only as a `NaN` field.
- `JsString.ParseInt`: values beyond 2^53 are exact integers here; two-character fields never reach that size.
- `JsString.ToLowerAscii`: `toLowerCase` folds ASCII letters only. Non-ASCII case folding is not modelled.
- `Router.RouteMatches`: route paths are taken to be literal characters plus `:name` groups. Regular-expression metacharacters in a path are not escaped by the source, and that is not modelled.
- The `hashchange`/`popstate` listeners of the router and of `App.init`, and the construction of the other page components in `App.init`, are left out. They only call the modelled methods.
- The forgot-password handler in `public/phase1/js/admin-app.js` is left out. `forgotPassword` is never imported, so the handler always ends in its catch branch with a fixed error message.
- Closing admin modals by clicking the overlay is left out; it only removes a CSS class.
- `AdminApp.AdminPage.EditCustomer`: `findCustomerById` is not awaited at line 201, so its promise is modelled as a record with no fields. Its lookup is never modelled as succeeding.
- `Validation.ValidateConsultationForm` uses the `validateDOB` of `js/utils/calculations.js`. The phase-1 `calculations.js` it imports is not part of this model.
- Header, booking forms, the phase-1 `app.js` and the React `App.jsx` are left out. They are UI wiring that delegates to the modelled validators.

## Findings

| source | as written | input that shows it | evidently intended | confidence | as-written member | corrected member |
|---|---|---|---|---|---|---|
| js/components/admin/AdminDashboard.js:154 | appends `ies` to `Remedy` for every count but 1 | a record with 3 remedies shows "3 Remedyies" | "Remedy" for 1, "Remedies" otherwise | high; not executed | `Dashboard.CountLabelMisspelt` | `Dashboard.CountLabelIntendedMeaning` |
| js/utils/calculations.js:68 | `formatDOB` always prints the century `19` | "021505" shows "February 5, 1905", while `calculateAge` uses 2005 | the same century rule as `calculateAge` (lines 18-20) | medium; not executed | `Calculations.FormatDOBShowsWrongCentury` | `Calculations.FormatDOBResolvedAgreesWithAge` |
| js/app.js:41 | the "remedies" test runs before any id is read from the hash | `#myRemedies?customerId=XYZ`, the link the comment at line 48 describes, opens the modal with no id | open with the id the link carries | high; not executed | `App.ExampleLinkLosesId` | `App.ExampleLinkOpensWithId` |
| js/components/admin/AdminDashboard.js:158 | only single quotes are escaped in the onclick string literal, and nothing is escaped for the attribute around it | the id `a\n` (a, backslash, n) reaches `editCustomer` as `a` plus a newline; an id holding `"` never reaches it (`Dashboard.EscapeQuotesCutsAttribute`) | every id reaches the handler unchanged, which needs the string-literal escaping and the HTML attribute escaping (`"` as `&quot;`, `&` as `&amp;`) | medium; not executed | `Dashboard.EscapeQuotesLosesBackslash` | `Dashboard.EscapeForOnclickReadsBack` |
