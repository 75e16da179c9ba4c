# GNU social feeds: search-term compiler and feed editor, in Dafny

This project models two parts of GNU social's feed handling and proves
properties of them.

**The search-term compiler** is `onSearchCreateExpression` in the Feed
component. It turns one query term, and the requesting actor if there is
one, into criteria on notes and on actors. The criteria go into two
accumulators that the caller passes by reference. The term shapes are:
- free text;
- `note-local`;
- the note-type keys;
- `note-conversation`;
- the note-from keys with their `subscribed-<kind>` values;
- the actor-type keys, which add one criterion for each of the five actor kinds.

The criteria are a closed datatype (`Eq`, `NotEq`, `Contains`, `In`,
`And`). Their reading on a database row is given as well, so the model can
state what a criterion selects. Around the compiler, `Feed::query`
contributes two facts:
- when a query applies criteria at all;
- the order both result lists come back in: newest first, ties broken by
  the larger id.

**The feed editor** is the left panel's `EditFeeds` controller. The model
covers:
- the form it builds: four fields per feed named after the digest of the
  feed's URL, then the new-feed row;
- the lookup of a clicked remove button;
- the "update existing" path: chunk the submitted values into one row per
  feed, drop the new-feed row, sort by the submitted order (PHP's stable
  sort), renumber 1..n, and write each row back to its feed entity in place.

Modules:
- `PhpStrings` (with `Optional`): the PHP built-ins the core relies on, on
  ASCII strings. These are `explode`/`implode`, `trim`, `(int)` with 64-bit
  saturation, `filter_var(..., FILTER_VALIDATE_BOOLEAN)`, upper and lower
  case, `str_starts_with`, `str_ends_with` and `str_replace`.
- `Criteria`: the criterion datatype, the accumulators and the SQL reading
  of a criterion.
- `SearchExpression`: `Compile` is the handler as a function of its
  inputs. `CreateExpression` is the handler step by step, with its loops,
  and is proved equal to `Compile`.
- `SearchTermProperties`: what the handler promises, one lemma per term
  shape.
- `FeedQuery`: the empty-query decision and the result order of `query`.
- `EditFeeds`: the form, the remove lookup, the chunk/sort/renumber
  pipeline, and the `FeedEntity` class with its setters.

## Model

| member | source | states |
|---|---|---|
| PhpStrings.Explode | components/Feed/Feed.php:97 | `explode` yields at least one piece, no piece contains the separator, and there are two or more pieces exactly when the separator occurs |
| PhpStrings.ImplodeExplode | components/Feed/Feed.php:97 | joining the pieces with the separator gives the input back, so splitting loses nothing |
| PhpStrings.SecondPiece | components/Feed/Feed.php:97-98 | for `key:v` followed by nothing or by `:...`, piece 0 is `key` and piece 1 is `v`; text after a second colon is dropped |
| PhpStrings.Trim | components/Feed/Feed.php:58 | `trim` with PHP's default characters (space, tab, newline, carriage return, NUL, vertical tab) strips them from both ends; what that means is stated by the three lemmas below |
| PhpStrings.TrimEmptyIffBlank | components/Feed/Feed.php:58 | `trim` gives the empty string exactly when every character is one of PHP's default trim characters |
| PhpStrings.TrimPadded | components/Feed/Feed.php:58 | `trim` removes exactly the blank margins around a text whose ends are not blank |
| PhpStrings.TrimIdempotent | components/Feed/Feed.php:116 | trimming twice is trimming once |
| PhpStrings.IntCast | components/Feed/Feed.php:116 | `(int)` on a string always gives a value in the 64-bit range |
| PhpStrings.IntCastOfDecimal | components/Feed/Feed.php:116 | `(int)` reads every non-negative 64-bit integer back from its decimal spelling |
| PhpStrings.DecimalTrims | components/Feed/Feed.php:116 | a decimal numeral is unchanged by `trim` |
| PhpStrings.FilterBool | components/Feed/Feed.php:101 | the boolean filter reads true only from a trimmed word of one to four characters |
| PhpStrings.FilterBoolPadded | components/Feed/Feed.php:101 | the boolean filter ignores blanks around a word and the case of its letters: a padded word reads as true exactly when its lower case is `1`, `true`, `on` or `yes` |
| PhpStrings.FilterBoolReadsYes | components/Feed/Feed.php:101 | `" YES\n"` reads as true: blanks and case are ignored |
| PhpStrings.FilterBoolReadsOn | components/Feed/Feed.php:101 | `On` reads as true |
| PhpStrings.FilterBoolRejectsZero | components/Feed/Feed.php:101 | `0` reads as false |
| PhpStrings.FilterBoolRejectsFalse | components/Feed/Feed.php:101 | `" false "` reads as false |
| PhpStrings.Upper | components/Feed/Feed.php:131 | `mb_strtoupper` on ASCII letters: every lower-case letter becomes its capital, every other character is kept, and the length is unchanged |
| PhpStrings.Lower | components/Feed/Feed.php:101 | ASCII lower-casing, with which the boolean filter compares spellings without regard to case; the length is unchanged |
| PhpStrings.UpperMatchesIffLowerMatches | components/Feed/Feed.php:131 | upper-casing a word gives a name of capital letters exactly when the two agree once lower-cased |
| PhpStrings.ReplaceAll | components/Left/Controller/EditFeeds.php:88 | `str_replace` with a non-empty pattern: every occurrence, scanned from the left without overlaps, is replaced |
| PhpStrings.ReplaceDashSuffix | components/Left/Controller/EditFeeds.php:88 | `str_replace` of a `-...` suffix in a text with no `-` replaces that suffix and nothing else |
| SearchExpression.RuleOfAsWritten | components/Feed/Feed.php:96-147 | as written, a term is free text exactly when it has no colon |
| SearchExpression.RuleOf | components/Feed/Feed.php:96-147 | the same routing with `notes-` keys admitted to the note namespace; free text exactly when there is no colon |
| SearchExpression.Compile | components/Feed/Feed.php:94-172 | the handler as a function of term, actor and accumulators: the routed rule's outcome, either `Event::next` with the new accumulators or the failure the rule throws; the lemmas of `SearchTermProperties` state it term shape by term shape |
| SearchExpression.KindConstant | components/Feed/Feed.php:131 | a constant name resolves only to the kind whose constant bears that name |
| SearchExpression.ActorTypePredAt | components/Feed/Feed.php:151-164 | the actor-type rule adds one criterion per kind, the j-th for the j-th kind of the fixed order |
| SearchExpression.UndefinedSticks | components/Feed/Feed.php:125-134 | once a kind name fails to resolve, the later values of the term leave that failure as the result |
| SearchExpression.AppendContentPresence | components/Feed/Feed.php:106-113 | the note-type branch appends the content criterion to the note accumulator, and fails on one that holds a single expression |
| SearchExpression.ScanOne | components/Feed/Feed.php:126-133 | one turn of the note-from loop: other values ignored, `subscribed-actor(s)` resets to null, a kind name appends its constant or fails |
| SearchExpression.ScanSubscriptions | components/Feed/Feed.php:125-134 | the loop over the note-from values computes the specified kind list |
| SearchExpression.ScanFroms | components/Feed/Feed.php:125-134 | the note-from loop over the values as a function: the kind list it ends with, or the first name that fails to resolve |
| SearchExpression.NoteFromRule | components/Feed/Feed.php:118-139 | the note-from rule as a function: failure without an actor or on an unresolved name, else the criterion the kind list calls for, or no change |
| SearchExpression.SubscribedFrom | components/Feed/Feed.php:120-139 | the note-from branch yields the note-from rule's outcome, including the null-actor and unresolved-constant failures |
| SearchExpression.AppendActorTypes | components/Feed/Feed.php:148-164 | the actor-type loop appends the five kind criteria to the actor accumulator |
| SearchExpression.CreateExpression | components/Feed/Feed.php:94-172 | the handler run step by step gives exactly the outcome `Compile` specifies, for every term, actor and pair of accumulators |
| SearchTermProperties.AppendShape | components/Feed/Feed.php:106-110 | `$acc[] = ...` turns null into a list, extends a list, and fails on a single expression |
| SearchTermProperties.KeyAndValue | components/Feed/Feed.php:96-98 | the key of `key:v...` is `key` and its value is `v` |
| SearchTermProperties.NoteRoute | components/Feed/Feed.php:98-99 | a key of the note namespace reaches that key's case of the note switch |
| SearchTermProperties.FreeTextTerm | components/Feed/Feed.php:168-170 | a term without a colon sets the note criteria to a content search for the whole term and leaves the actor criteria alone |
| SearchTermProperties.NoteLocalTerm | components/Feed/Feed.php:100-102 | `note-local:v` replaces the note criteria by `is_local` equal to the boolean reading of `v`; actor criteria unchanged |
| SearchTermProperties.NoteConversationTerm | components/Feed/Feed.php:115-117 | `note-conversation:v` replaces the note criteria by the conversation id equal to `(int) trim(v)`; actor criteria unchanged |
| SearchTermProperties.NoteConversationReadsId | components/Feed/Feed.php:116 | `note-conversation:<n>` selects conversation `n` for every non-negative 64-bit `n` |
| SearchTermProperties.NoteTypesTerm | components/Feed/Feed.php:103-114 | a note-type key appends exactly one criterion to the prior note list: content present if and only if `text` or `words` is among the values, absent otherwise; a single expression throws |
| SearchTermProperties.ContentPresenceSelects | components/Feed/Feed.php:109-113 | the note-type criterion holds for a note exactly when its having content matches whether `text` or `words` was asked for |
| SearchTermProperties.ScanFromsIsExpected | components/Feed/Feed.php:121-134 | the note-from loop ends with the closed-form kind list: the first unresolvable name, else the kinds named after the last `subscribed-actor(s)` |
| SearchTermProperties.NoteFromWithoutActor | components/Feed/Feed.php:118-120 | the note-from rule without a requesting actor throws |
| SearchTermProperties.NoteFromRuleOutcomes | components/Feed/Feed.php:118-139 | the note-from rule's outcome for an actor, in order of precedence: failure, bare subscription criterion, subscription and author kinds, no change |
| SearchTermProperties.NoteFromOutcomes | components/Feed/Feed.php:118-140 | the same three outcomes and the failure for a whole note-from term; the actor criteria are never touched |
| SearchTermProperties.NoteFromSubscribed | components/Feed/Feed.php:122-136 | `note-from:subscribed` gives exactly the criterion "subscribed to by the actor" |
| SearchTermProperties.NoteFromIgnoresOtherValues | components/Feed/Feed.php:125-137 | with no value starting with `subscribed-` (and not `subscribed` itself) the note criteria stay as they were |
| SearchTermProperties.KindAfterAnyActor | components/Feed/Feed.php:128-131 | a kind named right after `subscribed-actor(s)` starts a new one-element kind list |
| SearchTermProperties.ConstantNameResolves | components/Feed/Feed.php:131 | each kind's constant name resolves to that kind |
| SearchTermProperties.KindWordResolves | components/Feed/Feed.php:127-131 | a `subscribed-<word>` value resolves to a kind exactly when `word` is that kind's constant name up to ASCII case (ASCII spellings only) |
| SearchTermProperties.UnknownKindThrows | components/Feed/Feed.php:125-134 | a value naming no constant makes the note-from term throw wherever it stands |
| SearchTermProperties.ActorRoute | components/Feed/Feed.php:142-147 | an actor-type key passed by the actor test reaches the actor-type rule |
| SearchTermProperties.ActorTypesTerm | components/Feed/Feed.php:142-165 | an actor-type term appends the five kind criteria to the prior actor list and leaves the note criteria untouched; a single expression throws |
| SearchTermProperties.ActorTypePredsInOrder | components/Feed/Feed.php:151-164 | five criteria in the order person, group, organization, business, bot: equality for a kind one of whose words is a value, inequality otherwise |
| SearchTermProperties.ActorTypesSelectOneKind | components/Feed/Feed.php:151-164 | an actor of kind `t` passes all five criteria exactly when `t` is the only kind asked for |
| SearchTermProperties.ActorTypesRejectKindless | components/Feed/Feed.php:151-164 | an actor with no kind fails the actor-type term's criteria |
| SearchTermProperties.UnknownKeyChangesNothing | components/Feed/Feed.php:96-171 | a key outside the rule table leaves both accumulators unchanged and returns `Event::next` |
| SearchTermProperties.WhereItThrows | components/Feed/Feed.php:94-172 | the handler throws only when appending to a single expression, for note-from without an actor, or for an unresolvable kind; the single-criterion rules never throw |
| SearchTermProperties.NotesAliasesUnreachableAsWritten | components/Feed/Feed.php:98-119 | as written, `notes-include` and `notes-from` reach no rule; the corrected routing sends them to the note-type and note-from rules |
| SearchTermProperties.RoutingsAgreeElsewhere | components/Feed/Feed.php:96-147 | the corrected and the as-written routing agree on every other term |
| Criteria.Holds | components/Feed/Feed.php:100-169 | the reading of a criterion on a record: equality, inequality with SQL's NULL rules, substring for `contains`, membership, conjunction |
| FeedQuery.CriteriaOf | components/Feed/Feed.php:56-60 | a query that is empty after trimming (or is `"0"`) applies no criteria to either domain |
| FeedQuery.BlankQueryAppliesNone | components/Feed/Feed.php:56-60 | an all-blank query applies no criteria |
| FeedQuery.ParserSeesTrimmed | components/Feed/Feed.php:58-59 | the parser receives the query without its blank margins |
| FeedQuery.ZeroQueryAppliesNone | components/Feed/Feed.php:58 | the query `0`, with or without blanks around it, applies no criteria, since `empty("0")` holds |
| FeedQuery.Matching | components/Feed/Feed.php:69-77 | a row is returned exactly when it is in the table and meets the criteria, if any |
| FeedQuery.NoCriteriaKeepsAll | components/Feed/Feed.php:69-77 | without criteria every row of the table is returned |
| FeedQuery.Ordered | components/Feed/Feed.php:63-64 | the ordering keeps exactly the rows and sorts them by `created` descending, then `id` descending |
| FeedQuery.Results | components/Feed/Feed.php:63-77 | one domain's result: the admitted rows ordered newest first |
| FeedQuery.Query | components/Feed/Feed.php:54-81 | both lists `query` returns: the notes and the actors the query's criteria admit, each newest first |
| FeedQuery.ResultsAnswer | components/Feed/Feed.php:63-77 | each domain's result holds exactly the admitted rows, newest first |
| FeedQuery.AnswerUnique | components/Feed/Feed.php:63-64 | two lists with the same rows that are both in that order are the same list, so the result order is fully determined |
| FeedQuery.BlankQueryReturnsAll | components/Feed/Feed.php:56-81 | an all-blank query returns every note and every actor, newest first |
| EditFeeds.AllFeedFields | components/Left/Controller/EditFeeds.php:46-52 | each feed contributes exactly four field definitions |
| EditFeeds.FormDefinitions | components/Left/Controller/EditFeeds.php:45-59 | the form's field list: the four fields of every feed in order, then the new-feed fields |
| EditFeeds.BuildForm | components/Left/Controller/EditFeeds.php:45-59 | the loop builds the field list: each feed's four fields in order, then the six new-feed fields |
| EditFeeds.FeedFieldsAt | components/Left/Controller/EditFeeds.php:46-52 | feed `i` owns definitions `4i` to `4i+3` |
| EditFeeds.FormShape | components/Left/Controller/EditFeeds.php:46-59 | feed `i`'s fields are `md5(url)-url`, `-order`, `-title`, `-remove`, holding its URL, ordering and title; the form has `4n+6` fields |
| EditFeeds.NewOrderDefault | components/Left/Controller/EditFeeds.php:54-55 | the new feed's default order is the float `n + 1.25`, whose integer part is `n + 1` |
| EditFeeds.FindRemoval | components/Left/Controller/EditFeeds.php:101-111 | the loop finds the data of the first `-url` field whose remove button was clicked |
| EditFeeds.FirstRemoval | components/Left/Controller/EditFeeds.php:101-111 | the removal loop as a function: the data of the first `-url` field whose remove button was clicked, or nothing |
| EditFeeds.RemoveButtonOf | components/Left/Controller/EditFeeds.php:102-104 | a `d-url` field ends with `-url`, and replacing `-url` by `-remove` names the same feed's remove button |
| EditFeeds.OnlyUrlFieldsEndWithUrl | components/Left/Controller/EditFeeds.php:102 | the order, title and remove fields do not end with `-url` |
| EditFeeds.RemovalTargetsClickedFeed | components/Left/Controller/EditFeeds.php:65-111 | after the five pops, the removal targets the URL of the first feed whose button was clicked, and nothing when none was |
| EditFeeds.Chunks | components/Left/Controller/EditFeeds.php:75 | `array_chunk` by three gives `ceil(n/3)` chunks |
| EditFeeds.ChunksShape | components/Left/Controller/EditFeeds.php:75 | every chunk holds one to three values, all but the last exactly three, and the chunks put together are the values |
| EditFeeds.FeedRows | components/Left/Controller/EditFeeds.php:75-77 | dropping the last chunk leaves one row per remaining chunk, holding that chunk's values |
| EditFeeds.FeedRowsRoundTrip | components/Left/Controller/EditFeeds.php:71-77 | the rows read back from the values the form submits for a list of feed rows, followed by any new-feed row, are that list |
| EditFeeds.SortSorted | components/Left/Controller/EditFeeds.php:79 | the sort orders the rows by ascending order value |
| EditFeeds.SortByOrder | components/Left/Controller/EditFeeds.php:79 | `usort` by the order value, as insertion of each row after every earlier row whose order is at most its own |
| EditFeeds.SortPermutes | components/Left/Controller/EditFeeds.php:79 | the sort is a permutation of the rows |
| EditFeeds.SortKeepsTies | components/Left/Controller/EditFeeds.php:79 | rows with the same order value keep their relative order, as PHP's stable sort does |
| EditFeeds.StableSortUnique | components/Left/Controller/EditFeeds.php:79 | a sorted list is determined by its groups of ties |
| EditFeeds.SortIsStableSort | components/Left/Controller/EditFeeds.php:79 | any sorted list with the input's groups of ties is what the sort returns |
| EditFeeds.Renumbered | components/Left/Controller/EditFeeds.php:80-85 | row `i` gets order `i+1`, and everything else in the row is unchanged |
| EditFeeds.Renumber | components/Left/Controller/EditFeeds.php:80-85 | the loop sets the orders to 1..n along the sorted rows |
| EditFeeds.FeedEntity.SetUrl | components/Left/Controller/EditFeeds.php:90 | sets the URL and nothing else |
| EditFeeds.FeedEntity.SetOrdering | components/Left/Controller/EditFeeds.php:91 | sets the ordering and nothing else |
| EditFeeds.FeedEntity.SetTitle | components/Left/Controller/EditFeeds.php:92 | sets the title and nothing else |
| EditFeeds.DigestOfUrlKey | components/Left/Controller/EditFeeds.php:88 | removing `-url` from a feed's URL field name gives back the digest of the feed's URL |
| EditFeeds.FirstWithDigest | components/Left/Controller/EditFeeds.php:89 | the lookup returns the first feed whose URL digest matches, or none when no feed matches |
| EditFeeds.ApplyAsWritten | components/Left/Controller/EditFeeds.php:87-94 | the update loop as written keeps the number of feeds |
| EditFeeds.FormRowKeyed | components/Left/Controller/EditFeeds.php:46-52 | the values the form submits for a feed come under the names `d-url`, `d-order` and `d-title` of that feed's digest `d`, so the setters' keyed reads are the row's URL, order and title |
| EditFeeds.RenumberedSortKeyed | components/Left/Controller/EditFeeds.php:79-85 | sorting and renumbering keep every row's field names, so the keyed reads still hold at the update loop |
| EditFeeds.AsWrittenFollowsOriginal | components/Left/Controller/EditFeeds.php:87-94 | while every feed matches each row's digest under its current URL exactly when it did under its original URL, and no row renames a feed to a URL a later row names, the loop as written gives the same result as the lookup by original URL |
| EditFeeds.AsWrittenSetsEach | components/Left/Controller/EditFeeds.php:87-94 | when the rows name distinct existing feeds and no row renames a feed to a URL a later row names, the loop as written completes, gives each named feed its own row's values and leaves the other feeds unchanged |
| EditFeeds.UnchangedUrlsNoCollision | components/Left/Controller/EditFeeds.php:87-94 | rows that keep their feeds' URLs and name distinct feeds meet the no-collision condition, so the ordinary submission lands each row on its own feed |
| EditFeeds.UpdateExisting | components/Left/Controller/EditFeeds.php:87-94 | the loop leaves the entities as the as-written update specifies, and reports whether every row found its feed |
| EditFeeds.UpdateFeeds | components/Left/Controller/EditFeeds.php:73-94 | the update path writes the chunked, sorted and renumbered rows back to the entities |
| EditFeeds.ApplyByOriginal | components/Left/Controller/EditFeeds.php:87-94 | the update with each row looked up by the feeds' original URLs keeps the number of feeds |
| EditFeeds.ByOriginalSetsEach | components/Left/Controller/EditFeeds.php:87-94 | looked up by original URL, each row sets exactly its own feed and feeds no row names keep their values |
| EditFeeds.SwappedUrls | components/Left/Controller/EditFeeds.php:87-93 | when two feeds swap URLs and the feed listed first also has its row processed first, the code as written gives the first feed the second row's values and never updates the second feed; the corrected lookup carries out the swap |
| EditFeeds.SwappedUrlsOtherOrder | components/Left/Controller/EditFeeds.php:87-93 | with the same swap but the second-processed feed listed first, the code as written carries the swap out, and agrees with the lookup by original URL |

## Left out

- The query parser (`Parser::parse`) is not part of this model. How a query is split into terms and how the per-term criteria are combined is therefore not modelled. `FeedQuery` takes the parser as a function parameter.
- Doctrine is not modelled: query builders, `addCriteria`, query execution and the joins added by `onSearchQueryAddJoins`. A table is a sequence of records, and a criterion's reading on a record is given by `Criteria.Holds`.
- FeedQuery.Query: a note record is one note with a unique id, and its subscription column stands for one of the possibly several rows the left join on `subscription` gives for the note's author. What `query` returns for a note whose author has several subscribers (one entry when any joined row matches, or one entry per matching row) is not modelled.
- Criteria.Holds: `contains` is read as a plain substring test. Doctrine emits `LIKE '%term%'` without escaping the term, so `%` and `_` in a free-text term act as wildcards there. The term `a_c` selects a note whose content is `abc`, which `Holds` does not say. LIKE patterns are not modelled.
- Pagination and language are not modelled, because `query` ignores `$page` and `$language` is only passed on to the parser.
- Scope and visibility are enforced by the feed controller, which is not part of this model.
- `Formatting::startsWith` is applied to the whole exploded term at line 142 and is not part of this model. It is the `guard` parameter.
- The actor-kind constants' numeric values are not modelled; the kinds are an enumeration.
- PhpStrings.Upper: `mb_strtoupper` is modelled on ASCII letters only.
- PhpStrings.IntCast: the cast reads optional blanks, an optional sign and decimal digits, saturated to 64 bits. Exponent and fractional forms are not modelled. The read-back lemma covers non-negative values only.
- PhpStrings.FilterBool: its own contract states only the length bound on what reads as true. `FilterBoolPadded` states the reading of a padded word. Words with blanks inside them are not characterised.
- EditFeeds.UpdateExisting: reads `F\first` at EditFeeds.php:89 as `Functional\first`. The file's namespace is `Component\Left\Controller` and it has no `use Functional as F;`, so as the text stands the name resolves to the missing `Component\Left\Controller\F\first`, and the first feed row throws before any setter runs. The model describes the evidently intended call.
- EditFeeds.UpdateFeeds: rests on the same reading of line 89. `Cache`, `RedirectException`, `Router` and `ResourceNotFoundException` are not imported by the file either, so `Cache::delete` (lines 96, 107, 116, 134) would throw an unknown-class error instead of redirecting. The model stops before those calls.
- EditFeeds.FindRemoval: as the text stands, `DB::remove` and `DB::flush` (lines 105-106) run before the unimported `Cache::delete` at line 107 throws. The model covers only which URL is removed.
- The md5 digest is a function parameter. Lemmas that read field names back require digests without `-`, as hexadecimal ones are.
- The Symfony form is not modelled: request handling, validation, `getData` and `isClicked`. The submitted values and the clicked buttons are parameters. How an integer field displays the float default `n + 1.25` is not modelled.
- Empty text fields, which the form submits as `null`, are not modelled. A feed's submitted row holds two strings and an integer.
- Database writes, the cache and redirects are not modelled: `DB::merge`, `remove`, `flush`, `Cache::delete` and the redirect exception. The removal itself is left out; the model covers which URL is removed.
- The "reset" and "add" branches (lines 113-139) are not modelled. They consist of database calls, `Router::match` and default-feed creation, none of which is part of this model.
- `$feeds_data` is a PHP array, and PHP arrays are values. The sort and the renumbering loop are therefore modelled on sequence values. `usort` is the library's stable sort, given as the function `SortByOrder`.

## Findings

| source | as written | input that shows it | evidently intended | confidence | as-written member | corrected member |
|---|---|---|---|---|---|---|
| components/Feed/Feed.php:98-119 | the note switch has cases for `notes-include` and `notes-from`, but is entered only for keys that start with `note-` | the term `notes-from:subscribed` leaves both accumulators unchanged | the `notes-` aliases reach the note-type and note-from rules like their `note-` forms | high (not executed) | SearchTermProperties.NotesAliasesUnreachableAsWritten | SearchExpression.RuleOf |
| components/Left/Controller/EditFeeds.php:87-93 | with `F\first` read as `Functional\first` (the file does not import it; see Left out), each row looks its feed up by the digest of the feed's current URL, which an earlier row of the same loop may already have changed | feeds `a` (ordering 1) and `b` (ordering 2), listed in that order, whose URLs are swapped in the form; in the opposite listing order the lookup happens to find the right feeds | each row updates the feed whose original URL its field name carries | medium (not executed) | EditFeeds.SwappedUrls | EditFeeds.ByOriginalSetsEach |

The search compiler (`Compile`, `CreateExpression`) uses the corrected
routing. The feed update keeps the code's lookup in `UpdateExisting`, with
`F\first` read as `Functional\first`, so
its specification, `ApplyAsWritten`, shows the finding. `ApplyByOriginal`
is the corrected update, and `ByOriginalSetsEach` proves its intended
property. `AsWrittenSetsEach` shows that the code's lookup reaches the
same result whenever no row renames a feed to a URL that a later row
names. In particular this holds for every submission that changes no URL.
