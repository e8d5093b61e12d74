# A model of the page logic of the multi-client website builder

The website builder renders small-business sites (a plumber, a restaurant, a medical
practice, ...) from one configuration per client. This project models in Dafny the
logic behind those pages that is not drawing:

- **SEO** (`src/lib/utils/seo.ts`, module `Seo`):
  - the Next.js metadata object, with the base and canonical URLs;
  - the schema.org `LocalBusiness` structured data, with its opening-hours specification, social profiles and offer catalogue;
  - the breadcrumb list.
- **FAQ accordion** (`src/components/shared/FAQ.tsx`, module `Faq`): the list of open
  questions, a class whose `Toggle` method changes it in place.
- **Testimonials carousel** (`src/components/shared/Testimonials.tsx`, module
  `Testimonials`):
  - the featured index as a class, with its autoplay, next, previous and go-to-slide operations;
  - the star row, the 150-character excerpt and the three-card secondary grid.
- **Footer** (`src/components/shared/Footer.tsx`, module `Footer`): the opening-hours
  table, the certification-badge icon fallback, the `tel:` link and whether the social
  block is shown.
- **Contact form** (`src/components/shared/ContactForm.tsx`, modules `ContactForm` and
  `PhoneNumber`):
  - the base validation rules, including the French phone regular expression, modelled as a grammar with a recogniser proved sound and complete;
  - the rule object built from the custom fields;
  - the mailto subject and body;
  - the placeholder text;
  - the `isSubmitting`/`isSuccess` state of a submission.

Shared pieces:

- `Wrappers` (Option);
- `Seqs` (the filter-then-map pattern the source uses everywhere);
- `JsStrings`: the JavaScript string operations the source calls, namely
  - `toLowerCase` on ASCII and Latin-1,
  - `replace` of the first occurrence,
  - `split`/`join`,
  - `trim`,
  - `replace(/\s/g, '')` and `replace(/\s+/g, '-')` over the ECMAScript whitespace class;
- `ConfigTypes`, the configuration records of `src/lib/configs/config.types.ts`. A JavaScript object read with `Object.entries` or `Object.values` is a `JsRecord`: a sequence of key/value fields in `Object.entries` order (insertion order for the non-numeric keys these records use). An `undefined` value is `None`.

Everything the browser or the environment supplies is a parameter:

- the `NEXT_PUBLIC_BASE_URL` variable is `origin`;
- the webhook URL and whether its response was ok;
- `encodeURIComponent` is `encode`;
- zod's e-mail check is `isEmail`.

## Model

| member | source | states |
|---|---|---|
| JsStrings.Lower | src/lib/utils/seo.ts:120 | `toLowerCase` keeps the length, leaves no upper-case letter and changes nothing in a text without one |
| JsStrings.LowerIdempotent | src/lib/utils/seo.ts:120 | lower-casing twice is lower-casing once |
| JsStrings.ReplaceFirst | src/lib/utils/seo.ts:124 | `replace('h', ':')` changes only the first 'h', if there is one, and leaves a text without 'h' alone |
| JsStrings.ReplaceFirstAfter | src/lib/utils/seo.ts:124 | text before the first 'h' is kept and the replacement happens after it |
| JsStrings.IndexOf | src/lib/utils/seo.ts:124 | the position found is the first occurrence of the separator, and there is none iff the separator does not occur |
| JsStrings.Split | src/lib/utils/seo.ts:124 | `split` with a non-empty separator: at least one piece, and no piece contains the separator; JoinSplit and SplitJoin make it the inverse of Join |
| JsStrings.Join | src/lib/utils/seo.ts:15 | `join`: the pieces with the separator between consecutive ones and none for a single piece; JoinSplit and SplitJoin state what it undoes |
| JsStrings.JoinSplit | src/lib/utils/seo.ts:124 | joining the pieces of a split with the same separator gives back the text |
| JsStrings.SplitJoin | src/lib/utils/seo.ts:15 | splitting a join gives back the pieces, when no piece contains the separator and the separator cannot overlap itself |
| JsStrings.TrimStart | src/components/shared/ContactForm.tsx:118 | removes exactly the leading whitespace: a suffix that is empty or starts with a non-whitespace character |
| JsStrings.TrimEnd | src/components/shared/ContactForm.tsx:118 | removes exactly the trailing whitespace |
| JsStrings.Trim | src/components/shared/ContactForm.tsx:118 | `trim`: the result neither starts nor ends with whitespace, is no longer than the input, and a text without whitespace is unchanged |
| JsStrings.StripWhitespace | src/components/shared/Footer.tsx:368 | the result has no whitespace and is the input when that has none |
| JsStrings.StripWhitespaceAppend | src/components/shared/Footer.tsx:368 | stripping works piece by piece, so the non-whitespace characters are kept in order, each once |
| JsStrings.StripAllWhitespace | src/components/shared/Footer.tsx:368 | a text made only of whitespace strips to nothing |
| JsStrings.KeptNonWhitespace | src/components/shared/Footer.tsx:368 | dropping the whitespace characters leaves no whitespace, and changes nothing in a text without any |
| JsStrings.HyphenateWhitespace | src/lib/utils/seo.ts:9 | the result has no whitespace and is no longer than the input |
| JsStrings.HyphenateRun | src/lib/utils/seo.ts:9 | each maximal whitespace run, however long, becomes exactly one '-': after a whitespace-free prefix, a run followed by the end or by a non-whitespace character is replaced by a single hyphen |
| JsStrings.TrimStartRun | src/lib/utils/seo.ts:9 | a whitespace run followed by the end or by a non-whitespace character is removed whole when the start is trimmed |
| JsStrings.HyphenateAfter | src/lib/utils/seo.ts:9 | a whitespace-free prefix is kept as it is, and only the rest is rewritten |
| JsStrings.HyphenateIdentity | src/lib/utils/seo.ts:9 | a text without whitespace is unchanged |
| JsStrings.HyphenateTwoWords | src/lib/utils/seo.ts:9 | two whitespace-free words separated by one space are joined by a hyphen |
| JsStrings.HyphenateNoUpper | src/lib/utils/seo.ts:9 | hyphenating a lower-case text keeps it lower-case |
| Seqs.FilterMapAppend | src/lib/utils/seo.ts:78 | filter-map works piece by piece, so it keeps the input's order |
| Seqs.FilterMapMember | src/lib/utils/seo.ts:78 | an element is in the output iff some input element maps to it |
| Seqs.FilterMapAllKept | src/components/shared/Footer.tsx:165-170 | when every element is kept, the output lines up with the input |
| Seqs.FilterMapNoneKept | src/lib/utils/seo.ts:78 | when no element is kept, the output is empty |
| Seo.BaseUrl | src/lib/utils/seo.ts:9 | a non-empty origin is used as it is. Otherwise the URL is "https://" + the lower-cased business name with each whitespace run replaced by one hyphen + ".fr"; that host has no whitespace and no upper-case letter |
| Seo.FallbackBaseUrlExample | src/lib/utils/seo.ts:9 | "Plomberie Dubois" without an origin gives https://plomberie-dubois.fr |
| Seo.CanonicalUrl | src/lib/utils/seo.ts:10 | the canonical URL is the base URL followed by a non-empty page path, or the base URL alone |
| Seo.GenerateMetadata | src/lib/utils/seo.ts:4-53 | title, description and joined keywords. Open Graph and Twitter share the title, description and canonical URL. One 1200x630 image exists iff `ogImage` is set, and Twitter's image list matches Open Graph's. The canonical alternate is set, and the robots block is fixed |
| Seo.KeywordsRoundTrip | src/lib/utils/seo.ts:15 | the keyword list can be read back from the joined string when no keyword contains ", " |
| Seo.CanonicalOverrideIgnored | src/lib/configs/config.types.ts:45 | the configuration's `canonicalUrl` has no effect on the metadata |
| Seo.OpeningHoursEntry | src/lib/utils/seo.ts:119-131 | a property yields an entry iff its value is non-empty, its key is a weekday and its value is not "fermé"/"closed" in any case. The entry's day is the English name of the key |
| Seo.EnglishDay | src/lib/utils/seo.ts:106-114 | a key has an English day name iff it is one of the seven weekday keys, and the name is then an English weekday |
| Seo.OpeningHoursOf | src/lib/utils/seo.ts:116-135 | the list of entries the properties yield, in property order; GenerateOpeningHours computes it, OpeningHoursMember, OpeningHoursDays and OpeningHoursOrder characterise it |
| Seo.GenerateOpeningHours | src/lib/utils/seo.ts:105-136 | the loop with `continue` returns exactly the list `OpeningHoursOf` specifies |
| Seo.OpeningHoursMember | src/lib/utils/seo.ts:116-135 | an entry is in the output iff some property of the input yields it |
| Seo.OpeningHoursDays | src/lib/utils/seo.ts:106-119 | every listed day is an English weekday name, so "emergency" and unknown keys never appear |
| Seo.OpeningHoursOrder | src/lib/utils/seo.ts:118 | the output follows the input's key order |
| Seo.OpeningHoursSides | src/lib/utils/seo.ts:124 | when neither side contains a space, "open - close" yields those two sides as `opens` and `closes`, each with its first 'h' rewritten |
| Seo.TimeRewrite | src/lib/utils/seo.ts:124 | "<H>h<MM>" becomes "<H>:<MM>" |
| Seo.OpeningHoursExample | src/lib/configs/clients/dubois-plomberie.ts:28 | the plumber's Monday "8h00 - 19h00" opens at "8:00" and closes at "19:00" |
| Seo.ClosedDayExample | src/lib/configs/clients/dubois-plomberie.ts:34 | "Fermé", and also "FERMÉ", mark a closed day, which yields no entry |
| Seo.GenerateStructuredData | src/lib/utils/seo.ts:55-103 | every field of the `LocalBusiness` object. This includes the `@id` built from the origin, and geo present iff there are coordinates. Hours are present iff configured and are then the generated list; likewise `sameAs`, then the non-empty links. The catalogue is present iff there is at least one service, and its offers keep the service order and are numbered from 1 |
| Seo.SameAsOf | src/lib/utils/seo.ts:78 | the non-empty social links in key order, by SameAsMember and SameAsOrder |
| Seo.OffersOf | src/lib/utils/seo.ts:82-99 | one offer per service, so as many offers as services, the i-th numbered i + 1 |
| Seo.Interpolate | src/lib/utils/seo.ts:61 | a present origin is printed as it is and an absent one as "undefined"; IdWithoutOrigin uses it |
| Seo.SameAsMember | src/lib/utils/seo.ts:78 | `sameAs` lists exactly the non-empty social links |
| Seo.SameAsOrder | src/lib/utils/seo.ts:78 | the links keep the order of the object's keys |
| Seo.SameAsEmptyNotAbsent | src/lib/utils/seo.ts:78 | a social object with no usable link gives an empty `sameAs`, not an absent one |
| Seo.IdWithoutOrigin | src/lib/utils/seo.ts:61-62 | without an origin, `@id` is the text "undefined/#business" and `url` is omitted |
| Seo.GenerateBreadcrumbStructuredData | src/lib/utils/seo.ts:138-149 | one list item per crumb, numbered from 1 |
| Seo.BreadcrumbRoundTrip | src/lib/utils/seo.ts:142-147 | the crumbs can be read back from the list, in order |
| Faq.RemoveAll | src/components/shared/FAQ.tsx:41 | `filter(i => i !== x)` keeps exactly the other indices |
| Faq.RemoveAllAppend | src/components/shared/FAQ.tsx:41 | the kept indices keep their relative order |
| Faq.RemoveAbsent | src/components/shared/FAQ.tsx:41 | removing an absent index changes nothing |
| Faq.RemoveAllDistinct | src/components/shared/FAQ.tsx:41 | removal keeps a list free of duplicates |
| Faq.Toggled | src/components/shared/FAQ.tsx:38-44 | a click flips the clicked index and no other; a newly opened index goes to the end |
| Faq.ToggleTwice | src/components/shared/FAQ.tsx:38-44 | opening a question and clicking it again restores the list exactly |
| Faq.ToggleRemovesInOrder | src/components/shared/FAQ.tsx:40-41 | closing a question keeps the other open ones in their order |
| Faq.ToggleKeepsDistinct | src/components/shared/FAQ.tsx:38-44 | a click never creates a duplicate |
| Faq.ClicksKeepDistinct | src/components/shared/FAQ.tsx:38-44 | no sequence of clicks creates a duplicate |
| Faq.NeverDuplicated | src/components/shared/FAQ.tsx:36-44 | from the initial empty list, no sequence of clicks creates a duplicate |
| Faq.Accordion.constructor | src/components/shared/FAQ.tsx:36 | no question is open at first: the list is empty and `IsOpen` is false for every index |
| Faq.Accordion.IsOpen | src/components/shared/FAQ.tsx:123-132 | a question's answer is shown and its chevron rotated iff its index is in the open list; Toggle flips it for the clicked index only |
| Faq.Accordion.Toggle | src/components/shared/FAQ.tsx:38-44 | the new list is `Toggled` of the old one: the clicked question flips, every other stays, and a duplicate-free list stays so |
| Testimonials.JsRemainder | src/components/shared/Testimonials.tsx:58 | JavaScript's `%`: the remainder has the sign of the dividend, is smaller than the divisor, and is exact on the two ranges the carousel uses |
| Testimonials.NextIndex | src/components/shared/Testimonials.tsx:57-59 | from a valid index, the next one is the following index, or 0 after the last |
| Testimonials.PrevIndex | src/components/shared/Testimonials.tsx:61-63 | from a valid index, the previous one is the preceding index, or the last before 0 |
| Testimonials.PrevAfterNext | src/components/shared/Testimonials.tsx:57-63 | "previous" undoes "next" |
| Testimonials.NextAfterPrev | src/components/shared/Testimonials.tsx:57-63 | "next" undoes "previous" |
| Testimonials.NextTimesWithinCycle | src/components/shared/Testimonials.tsx:51-58 | up to n steps forward count up and wrap once |
| Testimonials.FullCycle | src/components/shared/Testimonials.tsx:51-58 | n ticks of autoplay return to the start |
| Testimonials.NextTimesAdd | src/components/shared/Testimonials.tsx:51-58 | steps compose |
| Testimonials.NextTimesPeriodic | src/components/shared/Testimonials.tsx:51-58 | navigation is periodic with period n |
| Testimonials.Carousel.constructor | src/components/shared/Testimonials.tsx:45 | the first testimonial is featured at first and no interval runs |
| Testimonials.Carousel.StartAutoplay | src/components/shared/Testimonials.tsx:47-55 | the interval runs iff autoplay is on and there are at least two testimonials |
| Testimonials.Carousel.Tick | src/components/shared/Testimonials.tsx:50-52 | a tick moves to the next index and keeps the index valid |
| Testimonials.Carousel.Next | src/components/shared/Testimonials.tsx:57-59 | moves to the next index and keeps it valid |
| Testimonials.Carousel.Prev | src/components/shared/Testimonials.tsx:61-63 | moves to the previous index and keeps it valid |
| Testimonials.Carousel.GoToSlide | src/components/shared/Testimonials.tsx:65-67 | stores the index as given; an index a dot offers keeps the state valid |
| Testimonials.Dots | src/components/shared/Testimonials.tsx:265-270 | one dot per testimonial when there are at least two, otherwise none |
| Testimonials.Stars | src/components/shared/Testimonials.tsx:69-84 | five stars, star i filled iff i < rating |
| Testimonials.StarsFilledFirst | src/components/shared/Testimonials.tsx:69-84 | the filled stars come first |
| Testimonials.CountFilledPrefix | src/components/shared/Testimonials.tsx:74-78 | a row filled exactly on its first p stars has p filled stars |
| Testimonials.StarsCount | src/components/shared/Testimonials.tsx:69-84 | a whole rating k fills k stars, clamped to 0..5 |
| Testimonials.Excerpt | src/components/shared/Testimonials.tsx:304-306 | content of at most 150 characters is shown whole; longer content is its first 150 characters and "..." |
| Testimonials.ExcerptBounded | src/components/shared/Testimonials.tsx:304-306 | an excerpt is at most 153 characters long and starts like the content |
| Testimonials.SecondaryCards | src/components/shared/Testimonials.tsx:284-306 | with at least two testimonials, the first three become cards, each with its name, excerpt and stars; otherwise there is no card |
| Testimonials.Render | src/components/shared/Testimonials.tsx:125-127 | nothing is shown iff there is no testimonial. Otherwise: the featured testimonial and its stars; arrows iff there are two or more; the dots; the active dot; the grid |
| Testimonials.ValidStateRenders | src/components/shared/Testimonials.tsx:125-127 | a valid carousel state over the listed testimonials meets what rendering needs, so the section is empty iff there is no testimonial |
| Testimonials.SingleTestimonial | src/components/shared/Testimonials.tsx:241 | a single testimonial shows no arrows, dots or cards |
| Footer.CertificationIcons | src/components/shared/Footer.tsx:94-145 | each variant has three non-empty badge icons |
| Footer.CertificationIcon | src/components/shared/Footer.tsx:235 | badges 0-2 use the variant's icons, and any further badge falls back to the trophy |
| Footer.HoursText | src/components/shared/Footer.tsx:169 | a non-empty value is shown as it is, and an empty or absent one as "Fermé" |
| Footer.FrenchDay | src/components/shared/Footer.tsx:155-163 | a key has a French day name iff it is one of the seven weekday keys |
| Footer.RowOf | src/components/shared/Footer.tsx:166-170 | every key but "emergency" gives a row with its French day and its hours text; RowsPerKey and EmergencyDropped state it for the whole list |
| Footer.FormatOpeningHours | src/components/shared/Footer.tsx:152-171 | no hours give no rows, and there are never more rows than keys |
| Footer.RowsPerKey | src/components/shared/Footer.tsx:165-170 | without "emergency", one row per key in key order, with the French day name and the hours text |
| Footer.EmergencyDropped | src/components/shared/Footer.tsx:166 | the "emergency" entry is dropped wherever it stands, and the rest keeps its order |
| Footer.RowsHaveHours | src/components/shared/Footer.tsx:169 | every row has non-empty hours |
| Footer.TelHref | src/components/shared/Footer.tsx:368 | the link starts with "tel:" and the rest has no whitespace; a number without whitespace is kept as it is |
| Footer.TelHrefAppend | src/components/shared/Footer.tsx:368 | the link of a concatenation is the link of the first part followed by the stripped second part, so the number's characters keep their order and count |
| Footer.TelHrefSpaced | src/components/shared/Footer.tsx:368 | two whitespace-free parts around a whitespace run give "tel:" followed by the two parts with nothing between them |
| Footer.TelKeepsCharacters | src/components/shared/Footer.tsx:368 | the link keeps exactly the number's non-whitespace characters |
| Footer.AnyTruthy | src/components/shared/Footer.tsx:243 | `some(Boolean)` holds iff some link is non-empty |
| Footer.ShowSocial | src/components/shared/Footer.tsx:243 | the social block is shown iff a social-media object is present and one of its values is non-empty; ShowSocialIffSameAs ties this to the structured data |
| Footer.ShowSocialIffSameAs | src/components/shared/Footer.tsx:243 | the social block is shown iff the structured data's `sameAs` is a present, non-empty list |
| PhoneNumber.RunLength | src/components/shared/ContactForm.tsx:15 | the longest run of characters meeting the class |
| PhoneNumber.RunLengthOf | src/components/shared/ContactForm.tsx:15 | a run followed by a character outside the class has exactly its own length |
| PhoneNumber.ParsePrefix | src/components/shared/ContactForm.tsx:15 | a recognised prefix is a prefix of the input |
| PhoneNumber.ParseGroups | src/components/shared/ContactForm.tsx:15 | a success yields k well-formed groups that render to the input |
| PhoneNumber.ParsePhone | src/components/shared/ContactForm.tsx:15 | a success is a well-formed match of the pattern that renders to the input |
| PhoneNumber.IsValidPhone | src/components/shared/ContactForm.tsx:15 | the regular-expression test; ValidPhoneIffMatches proves it holds iff the text matches the whole pattern |
| PhoneNumber.ParseGroupsComplete | src/components/shared/ContactForm.tsx:15 | the groups of a well-formed match are found again |
| PhoneNumber.ParseGroupsCons | src/components/shared/ContactForm.tsx:15 | a text that starts with a well-formed group is parsed as that group followed by the parse of the rest |
| PhoneNumber.ParsePrefixComplete | src/components/shared/ContactForm.tsx:15 | the prefix of a well-formed match is found again |
| PhoneNumber.ParsePhoneComplete | src/components/shared/ContactForm.tsx:15 | every text the pattern describes is recognised, with its own parse |
| PhoneNumber.ValidPhoneIffMatches | src/components/shared/ContactForm.tsx:15 | a phone is valid iff it matches the pattern |
| PhoneNumber.NoDigits | src/components/shared/ContactForm.tsx:15 | separators hold no digit |
| PhoneNumber.GroupsDigits | src/components/shared/ContactForm.tsx:15 | four groups hold exactly their eight digits |
| PhoneNumber.NineDigits | src/components/shared/ContactForm.tsx:15 | after the prefix, a valid number holds exactly nine digits, the first of them 1-9 |
| PhoneNumber.ConfiguredPhoneValid | src/lib/configs/clients/dubois-plomberie.ts:15 | the plumber's configured number "06 12 34 56 78" is accepted |
| PhoneNumber.ZeroAfterPrefixInvalid | src/components/shared/ContactForm.tsx:15 | "00 12 34 56 78" is refused, since no 1-9 digit follows the prefix |
| ContactForm.Complaint | src/components/shared/ContactForm.tsx:12-17 | a rule reports its message iff it fails |
| ContactForm.ValidName | src/components/shared/ContactForm.tsx:13 | `min(2)`: a name is valid iff it has at least 2 characters; BaseErrors reports its message exactly when it fails |
| ContactForm.ValidMessage | src/components/shared/ContactForm.tsx:16 | `min(10)`: a message is valid iff it has at least 10 characters; BaseErrors reports its message exactly when it fails |
| ContactForm.BaseErrors | src/components/shared/ContactForm.tsx:12-17 | each base message is reported iff its rule fails: name under 2, invalid e-mail, phone outside the pattern, message under 10. Errors name only the four base fields |
| ContactForm.BaseErrorsExact | src/components/shared/ContactForm.tsx:12-17 | only the four base messages can be reported, and there is no error at all iff the form passes all four rules |
| ContactForm.RuleFor | src/components/shared/ContactForm.tsx:62-66 | a required field gets the rule "<label> est requis" and any other field an optional rule |
| ContactForm.SchemaOf | src/components/shared/ContactForm.tsx:61-68 | the schema the reduce builds; DynamicSchema computes it, SchemaKeys and SchemaLastWins state its keys and which field decides each rule |
| ContactForm.RuleAcceptance | src/components/shared/ContactForm.tsx:63-66 | a required field accepts exactly non-empty strings, and an optional one accepts anything |
| ContactForm.DynamicSchema | src/components/shared/ContactForm.tsx:61-68 | the loop builds exactly the rule object `SchemaOf` specifies |
| ContactForm.SchemaKeys | src/components/shared/ContactForm.tsx:61-68 | every custom field name gets a rule, and no other name does |
| ContactForm.SchemaLastWins | src/components/shared/ContactForm.tsx:61-68 | a name's rule is that of the last field carrying it |
| ContactForm.MailtoSubject | src/components/shared/ContactForm.tsx:105 | "Nouveau message de " followed by the name |
| ContactForm.CustomLines | src/components/shared/ContactForm.tsx:114-117 | one "<label>: <value>" line per custom field with a non-empty value, in field order, by CustomLinesMember and CustomLinesOrder |
| ContactForm.MailtoBody | src/components/shared/ContactForm.tsx:106-118 | the trimmed body text; BodyIsTrimmedText, BodyStartsWithHead and BodyWithCustomLines state its contents |
| ContactForm.CustomLinesMember | src/components/shared/ContactForm.tsx:114-117 | a line appears iff some custom field has a non-empty value, and the line is then "<label>: <value>" |
| ContactForm.CustomLinesOrder | src/components/shared/ContactForm.tsx:114-117 | the lines keep the order of the configured fields |
| ContactForm.BodyIsTrimmedText | src/components/shared/ContactForm.tsx:106-118 | trimming drops only the template's first newline, its closing indentation and trailing whitespace of the input |
| ContactForm.BodyStartsWithHead | src/components/shared/ContactForm.tsx:106-118 | the body always starts with the name, e-mail, phone and "Message:" lines |
| ContactForm.BodyWithCustomLines | src/components/shared/ContactForm.tsx:106-118 | when the custom block does not end in whitespace, the body is the template text without its first newline and closing indentation |
| ContactForm.MailtoHref | src/components/shared/ContactForm.tsx:120 | the link starts with "mailto:" + recipient + "?subject=" |
| ContactForm.Placeholder | src/components/shared/ContactForm.tsx:134-153 | only the message field has a placeholder; legal, retail and general-service sites use the default text |
| ContactForm.PlaceholdersDistinct | src/components/shared/ContactForm.tsx:134-153 | the plumber, restaurant and medical texts differ from one another and from the default |
| ContactForm.Submission.constructor | src/components/shared/ContactForm.tsx:57-58 | the form starts neither submitting nor successful |
| ContactForm.Submission.Begin | src/components/shared/ContactForm.tsx:83 | the button is disabled |
| ContactForm.Submission.Finish | src/components/shared/ContactForm.tsx:85-131 | with a webhook, the outcome is a post or a failure according to the response; without one, a redirect to the mailto link. Success is set unless the submission failed, and the button is enabled again |
| ContactForm.Submission.ClearSuccess | src/components/shared/ContactForm.tsx:125 | the timer clears the success message |

## Left out

- Drawing is not modelled: the JSX markup, CSS classes, icons as components and animations. Only the values the markup shows and the conditions that show it are.
- I/O and time:
  - `fetch` is left out; its target and whether the response was ok are parameters of `Submission.Finish`;
  - `window.location`, `alert` and `console.error` are left out;
  - the five-second timer is the separate method `ClearSuccess`;
  - the webhook's JSON payload and its ISO timestamp are left out.
- React and libraries:
  - `reset()` and the react-hook-form wiring are not modelled;
  - zod's e-mail check is the parameter `isEmail`;
  - `encodeURIComponent` is the parameter `encode`.
- Testimonials and services:
  - the average-rating text (`toFixed(1)`) is floating point and is not modelled;
  - ratings and coordinates are exact `real`s;
  - the role, image and location of a testimonial are not modelled, and neither are a service's icon and highlight flag.
- JavaScript strings:
  - Strings are sequences of code points. The source counts UTF-16 code units in `min(2)`, `min(10)` and the 150-character excerpt, and the two only differ outside the Basic Multilingual Plane.
  - `toLowerCase` is modelled on ASCII and Latin-1; other letters are left unchanged.
- Seo.OpeningHoursEntry: a key such as "toString" that the day map inherits from the object prototype is treated as unknown. In the source, such a key yields an entry whose day is a function.
- ContactForm.BaseErrors: `baseSchema.extend` lets a custom field named like a base field replace the base rule. The model does not capture that.
- ContactForm.CustomLinesMember: the source reads a custom field's value from the whole submitted object, so a custom field named like a base field shows the base value. The model reads custom values from `custom` only.
- ContactForm.MailtoHref: states only the fixed prefix of the link. The rest is the encoded subject and body, whose encoding is a parameter.
- Testimonials.Carousel.Next: requires at least one testimonial, and so do Prev and Tick. With none, JavaScript's `% 0` gives NaN; the buttons and the interval exist only with two or more testimonials.
- Testimonials.Carousel.GoToSlide: an index outside the dots is stored but not proved valid, as in the source.
- The `@type` tags of nested structured-data objects are the names of the corresponding datatypes rather than fields. One exception: the offered item, whose tag is "Service" (src/lib/utils/seo.ts:91), is the datatype `ServiceItem`, so that it does not clash with the configuration's `Service`.
- Footer.FrenchDay: a key that the day map inherits from the object prototype, such as "toString", gives no day name in the model. In the source, `daysMap[key]` returns the inherited member.
- Testimonials.Render: requires an index inside the list when the list is non-empty. The source would throw a TypeError reading `rating` of `undefined`; GoToSlide can store such an index, as noted above.
- The full six-day opening-hours list of the plumber's configuration is not proved as one fixture. The Monday entry, the closed Sunday and the general lemmas about order, membership and the dropped "emergency" key cover it.
- The configuration resolver and the page that passes configurations to these components are not part of this model.
