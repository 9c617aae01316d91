# TK-IT mail: forwarding pipeline and alias resolution

This project models two pieces of the TK-IT mailing-list software. It proves properties of both.

**The forwarding pipeline of `emailtunnel`.**
- A message is an ordered list of (name, value) headers with an opaque body.
- `Messages.Message` is a class whose header list its methods update in place: `add_received_line`, `add_header` and `set_unique_header`.
- The header reads `get_all_headers`, `get_unique_header` and `subject` are functions over that list. `_fix_eols` is a pure function over text.
- `Envelopes.Envelope.recipients` is the imperative loop of the source:
  - it fills the `setdefault` table over the six recipient headers;
  - it pops each envelope recipient's entry;
  - then it sorts the result by header rank.
  Each loop is proved against a left-fold specification. The lemmas beside it state what the table and the result mean.
- `Forwarding.Forwarder` holds a forwarder's overridable methods as function-valued hooks, each of which may return or raise. The relay is a sink that records every accepted delivery in a `deliveries` field. The class has:
  - `get_envelope_recipients`;
  - `get_extra_headers` and `_add_extra_headers`;
  - `handle_envelope`, with flat and grouped delivery and its `already_sent` set;
  - `process_message` and `handle_DATA` with their 550 / 451 / 250 replies.

**The alias resolution of `tkmail.address`.**
- `Aliases` models `parse_recipient`:
  - tokenising a `+`/`-` expression;
  - resolving each alias through `parse_alias` (group, then title, then `DIRECTUSER<n>`);
  - collecting every failure;
  - folding the person ids with union and difference while keeping one origin per id;
  - sorting the result and refusing an empty result.
- It also models the `$`→`S`, upper-case normalisation of `translate_recipient`.
- `Periods` models Python's `int()` on ASCII text, `get_period` (postfix rules and the K/G/B/O/T grade) and the one-slot cache of `get_current_period`. The cache is the class `Periods.PeriodCache`.
  - Nothing in the code modelled here calls `get_period`: `parse_alias_title` reads a title with `tk.parse`, which is not part of this model.
  - When no `db` is passed, `get_current_period` builds `tkmail.database.Database()` before its `try` (tkmail/address.py:36-38). So a failed connection raises out of the function, and the cached value does not cover an unreachable database.

The collaborators are read-only functions of a `Facts` value:
- the database queries;
- `tk.parse`;
- the group patterns' full-match test.

Python's `sorted(set(...))` is `Sorting.SortedSet`. It is parameterised by a strict total order: integers, or strings in code-point order (`StrLess`).

The comment at tkmail/address.py:239-242 calls the postfixes 1920, 2021 and 2122 ambiguous. The code tests a four-digit postfix for a pair of consecutive years first and only then reads it literally, so `1920` names the board of 2019 and `2021` names the board of 2020. `Periods.LiteralPostfix` states this.

## Model

| member | source | states |
|---|---|---|
| Eols.FixEolsIsCrlfOnly | emailtunnel/__init__.py:51-55 | after `_fix_eols` every CR is followed by LF and every LF is preceded by CR |
| Eols.FixEolsKeepsCrlfOnly | emailtunnel/__init__.py:51-55 | text whose line breaks are all CRLF is left unchanged |
| Eols.FixEolsIdempotent | emailtunnel/__init__.py:51-55 | applying `_fix_eols` twice gives the same result as once |
| Eols.FixEolsKeepsLines | emailtunnel/__init__.py:51-55 | the non-break characters are kept in order, and the output has one LF per line break the pattern `\r\n\|\n\|\r` finds in the input |
| Messages.FirstIndex | emailtunnel/__init__.py:189-200 | the position of the first header whose name matches the key case-insensitively; none exactly when no header matches |
| Messages.AllValues | emailtunnel/__init__.py:181-187 | `get_all_headers`: empty exactly when no header matches; otherwise it starts with the first match's value |
| Messages.AllValuesAppend | emailtunnel/__init__.py:181-187 | the values of a concatenation are the values of the two parts, concatenated |
| Messages.UniqueValue | emailtunnel/__init__.py:189-194 | `get_unique_header`: a KeyError (`None`) exactly when the header is missing, else the first match's value |
| Messages.ReplaceOrAppend | emailtunnel/__init__.py:196-200 | `set_unique_header`: if the key exists, only its first occurrence changes value, in place, and the length is unchanged; otherwise one header is appended; afterwards the unique value is the new value |
| Messages.ReplaceOrAppendKeepsOthers | emailtunnel/__init__.py:196-200 | the values of every other header name are unchanged |
| Messages.ReceivedLineComesFirst | emailtunnel/__init__.py:160-168 | after prepending, the new value is the first `Received` value, followed by the old ones; every other name's values are unchanged |
| Messages.Subject | emailtunnel/__init__.py:215-222 | the first `Subject` value, or the empty string when there is none |
| Messages.SubjectRoundTrip | emailtunnel/__init__.py:215-226 | reading the subject after setting it gives the value set |
| Messages.Message.AddReceivedLine | emailtunnel/__init__.py:160-168 | the header list becomes the `Received` header followed by the old list; the body is unchanged |
| Messages.Message.AddHeader | emailtunnel/__init__.py:170-171 | appends one header; the body is unchanged |
| Messages.Message.SetUniqueHeader | emailtunnel/__init__.py:196-200 | the header list becomes `ReplaceOrAppend` of the old list |
| Messages.Message.SetSubject | emailtunnel/__init__.py:224-226 | sets the subject through `set_unique_header`, so the subject reads back as the value set |
| Messages.Message.Copy | emailtunnel/__init__.py:608 | a fresh message with the same headers and body |
| Envelopes.KindsAreRanked | emailtunnel/__init__.py:267 | the six recipient headers, To, Resent-To, Cc, Resent-Cc, Bcc and Resent-Bcc, each sit at the position of their rank |
| Envelopes.FirstWith | emailtunnel/__init__.py:284-288 | the dictionary lookup: a found entry has the address asked for; none exactly when the address is absent |
| Envelopes.SetDefaultAllKeepsFirst | emailtunnel/__init__.py:268-284 | after every `setdefault`, each address has one entry, and it is the address's first sighting |
| Envelopes.FirstWithWithout | emailtunnel/__init__.py:288 | after `pop(b)`, `b` is absent and every other address's entry is unchanged |
| Envelopes.WithoutKeepsUnique | emailtunnel/__init__.py:288 | `pop` keeps one entry per address and removes exactly the popped address |
| Envelopes.PopAllSpec | emailtunnel/__init__.py:286-290 | after popping every envelope recipient, the table holds exactly the other addresses, with their original entries |
| Envelopes.FirstSightingIsFirstHeader | emailtunnel/__init__.py:267-284 | an address's entry comes from the first header in the fixed order that lists it, with that header's first real name for it; no such header lists it exactly when there is no entry |
| Envelopes.EnvelopeRecipientEntry | emailtunnel/__init__.py:286-290 | entry i of the list before the rank sort is the i-th envelope recipient. It is tagged `Bcc` with no name when no header lists the address, or when the address already came earlier in the envelope. Otherwise it is tagged with the first header listing it |
| Envelopes.HeaderOnlyEntries | emailtunnel/__init__.py:291-293 | after the envelope entries comes exactly one `None`-address entry per address that headers list and the envelope does not, each with its first sighting |
| Envelopes.HeaderAddressesAreListed | emailtunnel/__init__.py:267-284 | an address is in the table exactly when some recipient header lists it |
| Envelopes.EnvelopeAddressesReported | emailtunnel/__init__.py:286-296 | an address appears as an envelope recipient of the sorted result exactly when it is in `rcpttos` |
| Envelopes.SameMembers | emailtunnel/__init__.py:294-295 | sorting by rank neither adds nor drops entries |
| Envelopes.RankSortIsStableSort | emailtunnel/__init__.py:294-295 | the sort by header rank is ordered by rank and is a permutation; the entries of each rank keep their original order |
| Envelopes.Envelope.Recipients | emailtunnel/__init__.py:257-296 | the loops compute the specification `RecipientsOf` that the lemmas above describe |
| Envelopes.CollectVisible | emailtunnel/__init__.py:267-284 | the header loop computes the `setdefault` table of all sightings, in header order |
| Envelopes.SetDefaultEach | emailtunnel/__init__.py:278-284 | the inner loop extends the table by the sightings of one header |
| Envelopes.PopEnvelopeRecipients | emailtunnel/__init__.py:286-290 | the envelope loop computes the envelope entries and the table left after the pops |
| Envelopes.Envelope.Copy | emailtunnel/__init__.py:608 | `deepcopy`: a fresh envelope with a fresh message of the same value |
| Forwarding.FirstFatalSpec | emailtunnel/__init__.py:465-486 | an exception other than InvalidRecipient, including the ValueError for a string result, escapes exactly when some translation raises it. The first such one escapes |
| Forwarding.FirstFatalPrefix | emailtunnel/__init__.py:477-480 | once an escaping exception has occurred, later recipients do not change it |
| Forwarding.CollectedSpec | emailtunnel/__init__.py:470-476 | the `invalid` list holds exactly the rejection of every envelope recipient whose translation raised InvalidRecipient. A rejection with one argument contributes that argument, otherwise the exception itself |
| Forwarding.CollectedEmpty | emailtunnel/__init__.py:483-486 | the list is empty exactly when no translation was rejected |
| Forwarding.ConcatenatedSpec | emailtunnel/__init__.py:478-481 | a target is in the concatenation exactly when some envelope recipient's translation contains it; entries without an envelope address are skipped |
| Forwarding.EnvelopeRecipientsOutcome | emailtunnel/__init__.py:452-486 | the result is a list exactly when every translation returned a list, and then it holds exactly their targets. InvalidRecipient is raised only when no fatal exception occurred, once, with the list of every rejection |
| Forwarding.DefaultTranslationKeepsRcpttos | emailtunnel/__init__.py:452-495 | with the base translation the result is a list of addresses, and exactly the envelope recipients |
| Forwarding.TranslateAll | emailtunnel/__init__.py:465-486 | the loop computes `EnvelopeRecipientsOf` |
| Forwarding.Forwarder.GetEnvelopeRecipients | emailtunnel/__init__.py:452-486 | `recipients()` followed by the translation loop |
| Forwarding.ExtraFieldsAreDistinct | emailtunnel/__init__.py:553-558 | the five optional fields have pairwise different names, even ignoring case |
| Forwarding.ExtraHeadersUpToSpec | emailtunnel/__init__.py:557-565 | after the first n fields: each header is a field of rank below n, in rank order; a field is present with value v exactly when its hook exists and returns v |
| Forwarding.ExtraHeadersSpec | emailtunnel/__init__.py:551-566 | `get_extra_headers` yields only optional fields, in the order Sender, List-Id, List-Unsubscribe, List-Help, List-Subscribe. A field is present with v exactly when its `get_*_header` hook exists and returns v, not None |
| Forwarding.ExtraHeadersDistinct | emailtunnel/__init__.py:551-566 | no two extra headers share a name |
| Forwarding.SetAllUniqueReadsBack | emailtunnel/__init__.py:568-570 | after `_add_extra_headers` each extra field reads back as its value |
| Forwarding.SetAllUniqueKeepsOthers | emailtunnel/__init__.py:568-570 | every other header name keeps its values |
| Forwarding.Forwarder.GetExtraHeaders | emailtunnel/__init__.py:551-566 | the loop returns `ExtraHeaders`, or raises exactly when one of the five hooks exists and raises |
| Forwarding.Forwarder.AddExtraHeaders | emailtunnel/__init__.py:568-570 | when get_extra_headers returns, the message becomes the old one with each extra header set by `set_unique_header`, in order. When it raises, the message is unchanged |
| Forwarding.Truthies | emailtunnel/__init__.py:586-587 | keeps exactly the truthy targets (not `''`, not `None`) |
| Forwarding.SortedAddresses | emailtunnel/__init__.py:593 | `sorted(set(...))`: strictly ascending, with exactly the given addresses |
| Forwarding.TruthyAddresses | emailtunnel/__init__.py:586-593 | the addresses delivered to in the flat case are exactly the non-empty address strings among the targets |
| Forwarding.GroupDelivery | emailtunnel/__init__.py:608-626 | an iteration succeeds only when get_envelope_mailfrom, get_envelope_received and get_group_recipients return. A group is skipped exactly when they return and all its recipients were already sent to. Otherwise it is delivered, from the returned sender, to exactly its new recipients, sorted, non-empty and without duplicates |
| Forwarding.GroupSend | emailtunnel/__init__.py:615-626 | after the stamp, the group is skipped exactly when no member is new. Otherwise it is delivered to exactly the new members, sorted and non-empty, unless a get_*_header hook raises |
| Forwarding.PlanGroupsSorted | emailtunnel/__init__.py:605-629 | every list the grouped loop delivers to is non-empty and strictly sorted |
| Forwarding.PlanGroupsDisjoint | emailtunnel/__init__.py:605-629 | no address is in two delivered lists, so each address is delivered to at most once |
| Forwarding.PlanGroupsSent | emailtunnel/__init__.py:605-629 | every delivered address is in `already_sent`. When no exception ended the loop, `already_sent` is exactly the delivered addresses, and these are every group's recipients |
| Forwarding.PlanGroupsGrows | emailtunnel/__init__.py:606-624 | over the loop, `already_sent` and the delivery log only grow, and nothing happens after an exception, whether a method's or the relay's |
| Forwarding.HandleEnvelopeOutcomes | emailtunnel/__init__.py:572-602 | handle_envelope returns a status exactly on InvalidRecipient when handle_invalid_recipient returns; that status is 550. Nothing is delivered when the recipients cannot be translated. When every truthy target is a string: at most one delivery, and exactly one when it returns None, to the sorted distinct non-empty addresses |
| Forwarding.FlatForward | emailtunnel/__init__.py:589-602 | the flat path delivers at most once, to `sorted(set(recipients))`, and exactly once when it returns None |
| Forwarding.HookExceptionsRaise | emailtunnel/__init__.py:573-600 | these exceptions make handle_envelope raise with nothing delivered: one from handle_invalid_recipient, in place of the 550; one from translate_subject, with the message unchanged; and, on the flat path, one from get_envelope_mailfrom or get_envelope_received, with the message only retitled |
| Forwarding.FirstGroupRaises | emailtunnel/__init__.py:604-610 | on the grouped path, when get_envelope_mailfrom raises for the first group (as the base class's does, since it accepts no `recipients` argument), handle_envelope raises before any delivery |
| Forwarding.FirstGroupStops | emailtunnel/__init__.py:605-610 | a first group whose get_envelope_mailfrom raises ends the grouped loop with no delivery |
| Forwarding.ReplyCodes | emailtunnel/__init__.py:304-312 | the reply is always 250, 550 or 451. It is 451 when the message cannot be built, or when handle_envelope raises, whether in a translation, in a method a subclass supplies or at the relay. A 550 comes with no delivery. It is 250 exactly when handle_envelope returned None |
| Forwarding.Forwarder.Deliver | emailtunnel/__init__.py:433-443 | a delivery the relay accepts is recorded; a refused one raises and records nothing |
| Forwarding.Forwarder.DeliverGroup | emailtunnel/__init__.py:608-629 | one iteration of the grouped loop on a fresh copy: the new `already_sent`, the exception that stops the loop, and the delivery made are those of `GroupDelivery` |
| Forwarding.Forwarder.SendToGroup | emailtunnel/__init__.py:615-629 | the rest of an iteration, on the stamped copy: computes the outcome of `GroupSend` and delivers it |
| Forwarding.Forwarder.DeliverGroups | emailtunnel/__init__.py:605-629 | the grouped loop makes exactly the deliveries of `PlanGroups`, and raises exactly the exception that ended the plan |
| Forwarding.Forwarder.HandleEnvelope | emailtunnel/__init__.py:572-629 | returns, delivers and leaves the message exactly as `HandleEnvelopeOf` says |
| Forwarding.Forwarder.DeliverFlat | emailtunnel/__init__.py:589-602 | the flat branch returns, delivers and leaves the message as `Forward` says |
| Forwarding.Forwarder.ProcessMessage | emailtunnel/__init__.py:371-402 | 451 when the envelope cannot be built or handling raises; otherwise handle_envelope's status |
| Forwarding.Forwarder.HandleData | emailtunnel/__init__.py:304-312 | replies `ReplyOf`: 250 OK when process_message gives None, else its status |
| Sorting.SortedSet | tkmail/address.py:140 | `sorted(s)` of a set: strictly ascending, with exactly the set's elements |
| Sorting.StrictlySortedIsUnique | tkmail/address.py:140 | two strictly sorted sequences with the same elements are equal |
| Sorting.StrLessIsStrictTotalOrder | emailtunnel/__init__.py:593 | Python's string order is a strict total order |
| Periods.PyIntRoundTrip | tkmail/address.py:238 | `int()` reads back every decimal numeral, also negated and surrounded by white space with a `+` |
| Periods.PyIntRejects | tkmail/address.py:238 | examples of what `int()` raises on: `""`, `"  "`, `"-"`, `"_1"`, `"1_"`, `"1__0"` and `"1 0"` |
| Periods.StripPadding | tkmail/address.py:238 | `int()`'s strip removes exactly the white space around a text that neither starts nor ends with white space; that white space is space, tab, newline, vertical tab, form feed and carriage return |
| Periods.SeparatorIsNotSpace | tkmail/address.py:254-256 | the separators \x1c to \x1f are not stripped by `int()`: a postfix of one of them and a digit makes `get_period` raise the ValueError of `int()` |
| Periods.PyIntRejectsBlank | tkmail/address.py:238 | `int()` raises on the empty text and on every text of white space only |
| Periods.PyIntRejectsMalformed | tkmail/address.py:238 | `int()` raises on every text that, inside its surrounding white space and after an optional sign, is empty (a bare sign), starts or ends with an underscore, has two underscores in a row, or holds a character other than a digit or an underscore (an inner space, a second sign) |
| Periods.TwoDigitPostfix | tkmail/address.py:254-259 | a two-digit postfix names its year from 1957 to 2056: above 56 means 19xx, otherwise 20xx |
| Periods.ConsecutivePostfix | tkmail/address.py:237-248 | a pair of consecutive two-digit years names the first year, with the same century rule |
| Periods.LiteralYear | tkmail/address.py:249-251 | a four-digit postfix starting 19 or 20 that is not a consecutive pair is read as the year |
| Periods.LiteralPostfix | tkmail/address.py:237-251 | every year from 1900 to 2099 written out names itself, except 1920 and 2021, which the consecutive-pair rule reads as 2019 and 2020 |
| Periods.FourDigitsRefused | tkmail/address.py:252-253 | any other four-digit postfix raises InvalidRecipient with the postfix |
| Periods.PostfixLength | tkmail/address.py:260-261 | a postfix of any length other than 0, 2 or 4 raises InvalidRecipient with the postfix |
| Periods.SpelledGrade | tkmail/address.py:263-270 | for every prefix written as title letters, each followed by a numeral or by nothing, the grade is the sum of each letter's weight (K=-1, G=1, B=2, O=3, T=1) times its exponent, and a letter with no numeral counts once |
| Periods.GetPeriod | tkmail/address.py:226-270 | the loop over the prefix computes `PeriodOf`: the period minus the grade, or the postfix error |
| Periods.KThreeUp | tkmail/address.py:264-270 | `K3` with no postfix is three years after the current period |
| Periods.GFourteen | tkmail/address.py:254-270 | `G` with postfix `14` is 2013, whatever the current period |
| Periods.DocumentedPeriods | tkmail/address.py:78-82 | `get_period` gives 2013 in 2010 for `K3` with no postfix and for `G` with postfix `14`, the splits of the documented aliases K3FORM and GFORM14; what `translate_recipient` resolves them to depends on `tk.parse` and is not stated |
| Periods.PeriodCache.constructor | tkmail/address.py:53 | the cache starts empty |
| Periods.PeriodCache.GetCurrentPeriod | tkmail/address.py:36-51 | when the default database cannot be built, the call raises and the cache is unchanged; otherwise a successful query replaces the cached value, a failed query keeps it, and the cached value is returned |
| Periods.CachedSpec | tkmail/address.py:36-53 | after a series of reads the cache holds the latest successful answer, or its earlier value when every read failed. It is empty only if it started empty and no read succeeded |
| Aliases.MatchingGroups | tkmail/address.py:146-158 | the groups whose anchored pattern matches the alias, each once, in table order |
| Aliases.NoGroupMatches | tkmail/address.py:164-166 | the group matcher gives `(None, None)` exactly when no pattern matches |
| Aliases.AmbiguousGroup | tkmail/address.py:160-162 | it raises ValueError exactly when two groups match |
| Aliases.OneGroup | tkmail/address.py:164-165 | a match is the one matching group, with its members' fetch and `GroupAlias(name)` |
| Aliases.MatchTitle | tkmail/address.py:169-187 | the title matcher accepts exactly when `tk.parse` succeeds and the base is BESTFU, BEST, FU, EFU, a board title or `E?FU\w+`. The origin is always `PeriodAlias('BESTFU', period, alias)` |
| Aliases.TitleMembers | tkmail/address.py:174-183 | the title matcher's fetch, by base: BESTFU is BEST's and FU's members, BEST/FU/EFU their members, any other title its holder |
| Aliases.DirectUserAlias | tkmail/address.py:190-195 | `DIRECTUSER<digits>`, also with a final newline, fetches user `int(digits)` with `DirectAlias(int(digits), alias)` |
| Aliases.DirectUserRoundTrip | tkmail/address.py:190-195 | `DIRECTUSER` followed by the numeral of n resolves to user n |
| Aliases.DirectUserRefuses | tkmail/address.py:190-195 | an alias not starting with `DIRECTUSER` is not matched |
| Aliases.DirectUserOnly | tkmail/address.py:190-195 | the converse of `DirectUserAlias`: every alias the matcher accepts is `DIRECTUSER`, a non-empty digit string and at most one final newline |
| Aliases.DirectUserRefusesTrailing | tkmail/address.py:191 | examples: `DIRECTUSER1A`, `DIRECTUSER1` followed by two newlines, and `DIRECTUSER` alone are not matched |
| Aliases.ParseAliasOutcome | tkmail/address.py:198-223 | ValueError exactly when the groups are ambiguous; every InvalidRecipient carries the alias. Success exactly when the first accepting matcher's fetch is non-empty, and then with that fetch's ids and origin, never empty |
| Aliases.GroupComesFirst | tkmail/address.py:205-222 | when one group matches, it decides the outcome |
| Aliases.TitleComesSecond | tkmail/address.py:205-222 | when no group matches, a title decides the outcome |
| Aliases.DirectComesLast | tkmail/address.py:205-222 | when neither matches, `DIRECTUSER<n>` decides it, and anything else raises InvalidRecipient(alias) |
| Aliases.NameRun | tkmail/address.py:118 | the longest run of non-sign characters at the front |
| Aliases.TokensRoundTrip | tkmail/address.py:118 | the tokeniser reads back every written sequence of signed, non-empty, sign-free names |
| Aliases.UnsignedFirstAlias | tkmail/address.py:118-121 | a first alias written without a sign is read with sign `+` |
| Aliases.SignWithoutName | tkmail/address.py:118 | a sign followed by another sign or by the end of the text is skipped |
| Aliases.DoubledSign | tkmail/address.py:118 | for any sign-free names a and b, `a--b` reads as `+a` and `-b`, as `A--B` does: the first `-` is skipped |
| Aliases.TrailingSign | tkmail/address.py:118 | for any sign-free name a, `a-` reads as `+a` alone, as `BEST-` does |
| Aliases.FoldSpec | tkmail/address.py:128-138 | an id survives the fold exactly when the last alias naming it is added, and its origin is that alias's origin; the surviving ids are exactly the keys of `origin` |
| Aliases.AllAddedIsUnion | tkmail/address.py:131-132 | when every alias is added, the result is the union of their ids |
| Aliases.SameRecipients | tkmail/test.py:362 | `FORM` and `BEST-CERM-INKA-KASS-NF-PR-SEKR-VC` reach the same people, when BEST is FORM plus the other titles and no one holds two |
| Aliases.FailuresSpec | tkmail/address.py:122-126 | a value is collected exactly when some alias raised InvalidRecipient with it; nothing is collected exactly when none did |
| Aliases.OpsSpec | tkmail/address.py:119-121 | the operations are exactly the resolved aliases with their tokens' signs |
| Aliases.AllFailuresAreNames | tkmail/address.py:118-123 | every collected failure is the name of an alias that parse_alias rejected |
| Aliases.AllFailedAliasesListed | tkmail/address.py:118-126 | the name of every rejected alias is collected |
| Aliases.ParseRecipientFailures | tkmail/address.py:116-126 | the list parse_recipient raises holds every failure, in token order |
| Aliases.CombinedErrors | tkmail/address.py:116-143 | ValueError exactly when some alias raised it. A list of failures exactly lists the rejected aliases. InvalidRecipient(recipient) exactly when nothing failed and the fold is empty |
| Aliases.FinishOutcome | tkmail/address.py:140-143 | an empty fold raises InvalidRecipient(recipient); otherwise the ids are sorted and the origins are given position by position |
| Aliases.CombinedResult | tkmail/address.py:128-143 | a result lists the fold's ids strictly ascending and non-empty, with as many origins as ids, each the id's origin |
| Aliases.ResolveAll | tkmail/address.py:116-126 | the first loop raises ValueError, raises InvalidRecipient with every failure, or returns the signed operations |
| Aliases.SetOrigins | tkmail/address.py:133-134 | `origin[p] = source` for each id of a `+` alias |
| Aliases.PopOrigins | tkmail/address.py:137-138 | `origin.pop(p, None)` for each id of a `-` alias |
| Aliases.FoldAll | tkmail/address.py:128-138 | the second loop computes `Fold` |
| Aliases.ParseRecipient | tkmail/address.py:109-143 | computes `ParseRecipientOf`, which the lemmas above describe |
| Aliases.NormalizedSpec | tkmail/address.py:97-99 | the normalised name has the same length, no `$` and no lower-case ASCII letter; upper-case letters are kept; normalising is idempotent |
| Aliases.NormalizedExamples | tkmail/address.py:97-99 | `KA$$` becomes `KASS` and `gFORM14` becomes `GFORM14` |
| Aliases.TranslateRecipient | tkmail/address.py:97-101 | resolves the normalised name; ids and origins have the same length |

## Left out

- The SMTP transport is left out: aiosmtpd, the asyncio `Handler` and `SMTPReceiver.start/stop/run`. So are smtplib, `configure_relay` and the bytes `deliver` sends. `deliver` is a sink that records an accepted delivery and raises otherwise.
- The `email` library is left out: parsing a message's bytes, `as_bytes`, `decode_any_header`, `Header`, `set_body_text`, `compose`, `getaddresses` and `formataddr`.
  - Message parsing is a hook that may fail.
  - Address parsing is a hook from header values to (realname, address) pairs.
  - A formatted address is kept as its (realname, address) pair.
- `_sanity_check`, `_sanity_log_invalid`, `log_receipt`, `log_delivery`, `handle_error` and all logging are left out. They are file writes and logging only.
- Clocks are left out: `now_string`, `make_message_id` and the date text of `get_envelope_received`. The `Received` value is whatever the hook returns. `_get_envelope_received_header`'s line folding of it is not modelled.
- Eols.FixEols: models text, not the bytes variant, because both use the same pattern. The TypeError for other argument types cannot arise in a typed model.
- Messages.Lower: the email library's case-insensitive name comparison is modelled for ASCII letters only.
- Periods.PyInt: `int()` is modelled for ASCII digits, the ASCII white space it strips (space, tab, newline, vertical tab, form feed, carriage return; not \x1c to \x1f, which it refuses) and single underscores between digits. Other Unicode digits and spaces are not modelled.
- Aliases.Normalized: `str.upper` is modelled by `UpperChar`, which raises a to z and à to þ (except ÷) and keeps every other character. So ß, which Python upper-cases to the two letters SS, stays one character, and the length clause of `NormalizedSpec` does not hold for it in Python. ÿ, µ and every code point above 255 are left as they are, although Python maps many of them.
- Aliases.DirectUserAlias: `\d` in the `DIRECTUSER` pattern, and the `int()` that reads it, are modelled by `Aliases.DirectDigits` for the ASCII digits 0 to 9 only. Python also accepts every other Unicode decimal digit: `DIRECTUSER` followed by Arabic-Indic digits names a user in the code, but the model gives no match.
- Aliases.IsWordChar: `\w` is exact only for code points below 256.
- tkmail/database.py is not part of this model. The queries, `tk.parse` and the group patterns are uninterpreted functions of `Facts`, and the outcome of the database's current-period call is a parameter: it answers, its query raises, or the default connection raises.
- Aliases.Facts: the collaborators of alias resolution are taken never to raise. In the code, `db.get_groups()` (tkmail/address.py:147), `re.match` on a malformed group pattern (:152), `tk.parse` with an exception other than ValueError (:171), the fetch `match()` (:219) and `Database()` (:98) can raise. parse_recipient catches only InvalidRecipient (:122), so such an exception would escape and stop the remaining aliases, just as the group ValueError does. The model has no outcome for it.
- `get_email_addresses` and the `list_ids` branch of `translate_recipient` are left out: they are a database query and a dict built from its result.
- `get_admin_emails` is left out: it depends on configuration outside the core.
- `handle_invalid_recipient`, `translate_subject`, `get_envelope_mailfrom`, `get_envelope_received`, `get_group_recipients` and the `get_*_header` methods are hooks, because subclasses supply them. Each call either returns a value or raises (`Call.Throws`). The model does not tell the exceptions apart: any hook exception becomes `Raised(OtherError)`, which process_message answers with 451. The base class's own behaviour is one instance of this. Its two-parameter get_envelope_mailfrom and its missing get_group_recipients both raise on the grouped path; `FirstGroupRaises` states that consequence.
- `log_invalid_recipient` and `log_receipt` are taken never to raise, because they only log.
- Forwarding.Truthy: a `Group` target is taken to be truthy. A subclass's `translate_recipient` could return a falsy group object, such as an empty tuple, which line 587 of emailtunnel/__init__.py would drop; the model keeps every group.
- The command-line programs `tkmail/__main__.py` and `emailtunnel/__main__.py` are left out.
- `copy.deepcopy` is a fresh copy of the message value.
- Concrete recipient addresses from tkmail/test.py are not modelled. Its expectation at tkmail/test.py:362 is stated as the general lemma `SameRecipients`, which holds for every database meeting its premises, and its case-folded alias `gFORM14` appears in the fixed examples of `NormalizedExamples`. Its expectation at tkmail/test.py:361 (`FORM13`, `FORM2013`, `FORM1314` and `gFORM14` reach the same people) is not stated: those aliases are read by `tk.parse`, which is not part of this model. `TwoDigitPostfix`, `LiteralPostfix` and `ConsecutivePostfix` describe only `get_period`'s own postfix rules, and nothing in the modelled code calls `get_period`.
