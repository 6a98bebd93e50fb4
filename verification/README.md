# Verified model of engram-mcp

`engram-mcp` serves a personal knowledge base to chat clients. This project models the four parts of it that
have state or arithmetic worth proving things about, and proves their properties over all inputs and all runs.
`dafny verify dfyconfig.toml` checks everything.

- **OAuth token lifecycle** (`src/oauth.rs`). `RefreshStore` is the family store with its state file, method by
  method; `OAuthProtocol` holds the checks and the server object; `OAuthSystem` is the same server as a step
  system in which requests overlap, writes to the state file fail or stop half-way, the process crashes at any
  point and restarts. `OAuthInvariant` proves one invariant of all its runs, `OAuthTheorems`, `OAuthTrace` and
  `OAuthProgress` what follows, `Pruning` compares the store with one that never forgets, `ScopeGrants` and `MacLabels` cover scopes
  and domain separation. The design follows section 4.14.2 of RFC 9700 (rotation), section 6 of RFC 6749
  (narrowing), section 4.1.2 of RFC 6749 (code use) and section 4.6 of RFC 7636 (PKCE). Only pruning needs
  anything of the clock; every other run theorem holds for any clock readings.
- **Inbox** (`src/inbox.rs`). `Calendar` and `Timestamps` are the date arithmetic and its printed forms, `NoteNames`
  the slugs and file names, `FrontMatter` the printer and its inverse, `InboxStore` the directory and `create_note`,
  `QuotaRace` overlapping calls of it, `QuotaBound` what they keep, `QuotaExcess` how far they can go.
- **Rate limits** (`src/auth.rs`). `TokenBucket`, over the reals and over arbitrary sequences of clock readings.
- **Scoped reads and search** (`src/document.rs`, `src/search.rs`, `ScopeDirectories` in `src/config.rs`). `Utf8` for
  size-limited reads, `DocumentIds` for path ids, `Documents` for what each scope sees, `Search` for ranking and
  filling a response, `Sorting` and `Lexicographic` for the order.

HMAC and SHA-256 are injective functions, random values are fresh strings, `serde_json`, `serde_yaml`,
`to_lowercase`, the directory walker, clocks and the outcome of each file operation are parameters.

Where the code and what is said about it differ, the model follows the code:

- `open` refuses a state file over 1 MiB but `persist` never checks the size, so a server can write a state it will
  not start from again. `LoadsExactlyWhatFits` says exactly when, `StateMayOutgrowTheLimit` how to get there.
- The comment at `src/inbox.rs:179-180` bounds the quota overshoot by one note. That is the case of two calls; with
  `k` calls in flight it is `k - 1` notes, no more and no less (`QuotaBoundIsExact`). A call counts from the start of its
  scan, not from its check: `EveryExcessIsReached` stores any number of notes that each fit on their own with never
  more than one call past the check.
- `validate_occurred` is documented as rejecting malformed dates but accepts February 31.
- A response is measured with the flag as it stands before truncation, which is one byte longer than the flag that
  is sent, so `search` may omit a result that would have fitted. `ResultIsLostExactlyWhen` gives the condition, and
  `AtMostOneResultIsLost` that it is one result.
- A snippet is built around the first line with the term and then cut to 600 characters from its beginning, which can
  remove that very line. `MatchIsShownExactlyWhenItFits` gives the condition.

## Model

| member | source | states |
|---|---|---|
| Text.WordsOfParts | src/oauth.rs:291-294 | splitting a text at any whitespace splits its words, which with single words determines the words of every text |
| ScopeGrants.AllowsIsCoverage | src/oauth.rs:340-348 | a grant allows another exactly when it covers every scope the other needs, Private covering Tech |
| ScopeGrants.AllowsIsTransitive | src/oauth.rs:340-344 | permission passes along a chain of grants |
| ScopeGrants.PrivateNeedsPrivate | src/oauth.rs:332-344 | what a grant allows is Private only if the grant is |
| ScopeGrants.ScopeTextRoundTrip | src/oauth.rs:287-366 | a valid grant printed and parsed again is the same grant |
| ScopeGrants.ParsesExactlyKnownWords | src/oauth.rs:287-303 | a scope parameter is accepted if and only if it is short and names known scopes, at least one, and grants exactly those |
| ScopeGrants.RegistrationKeepsKnownWords | src/oauth.rs:319-330 | a registration keeps the known scopes it names, or both when it names none |
| MacLabels.MacInputInjective | src/oauth.rs:654-664 | label, zero byte, value determines label and value for labels without a zero byte |
| MacLabels.LabelsAreDistinctAndNulFree | src/oauth.rs:526-664 | the nine labels in use are distinct and contain no zero byte |
| MacLabels.VerifiesOnlyAsSigned | src/oauth.rs:666-690 | under an injective MAC a signed object verifies for exactly the label and payload it was signed with |
| RefreshStore.LoadsExactlyWhatFits | src/oauth.rs:370-403 | a file the store wrote loads as what it wrote if and only if it is within the limit that open enforces |
| RefreshStore.StoredStateIsUnique | src/oauth.rs:486-502 | one state file stores one state |
| RefreshStore.Open | src/oauth.rs:370-403 | whatever is in the file, and however the system calls before reading it turn out, the error the source gives, or the loaded state, leaving the file alone |
| RefreshStore.RefreshTokenStore.Persist | src/oauth.rs:486-502 | the state file changes exactly when every file operation succeeds |
| RefreshStore.RefreshTokenStore.CreateFamily | src/oauth.rs:405-429 | reply and new state are those of the plan for the old state, memory and file staying equal |
| RefreshStore.RefreshTokenStore.RotateFamily | src/oauth.rs:431-476 | the same for rotation, with its pruning, revocation and replacement branches, and no change when a write fails |
| RefreshStore.ActiveExactlyWhileRotatable | src/oauth.rs:431-484 | a family authenticates bearers exactly while some refresh token of it could still be rotated, which is then its active token |
| RefreshStore.RotatesExactlyTheActiveToken | src/oauth.rs:447-475 | a rotation succeeds if and only if the token is the active one of a stored, unrevoked, unexpired family, and makes the new one active |
| RefreshStore.CreatesExactlyFreeFamilies | src/oauth.rs:412-428 | a creation succeeds if and only if no unexpired family has the identifier |
| RefreshStore.StateMayOutgrowTheLimit | src/oauth.rs:405-429 | creating one family more than the limit has bytes, each accepted, stores a state that open refuses |
| OAuthProtocol.BeginsExactly | src/oauth.rs:753-778 | field by field, when a query yields an approval request and what is in it; without a scope parameter it is for exactly what the client registered |
| OAuthProtocol.RefusesExactly | src/oauth.rs:789-829 | which error each unacceptable approval form gets, in the order of the checks |
| OAuthProtocol.OAuthServer.CompleteAuthorization | src/oauth.rs:785-855 | field by field, when a form is denied and when approved; the stored record's every field; other codes stay exactly while unexpired |
| OAuthProtocol.OAuthServer.ExchangeAuthorizationCode | src/oauth.rs:869-911 | a well-formed request by an authenticated client consumes the code in every case; tokens are issued if and only if the code is held and unexpired, client, redirect URI and resource are those it was approved for, the verifier is its challenge's, the family id is free and the file operations succeed; every claim of the tokens |
| OAuthProtocol.OAuthServer.ExchangeRefreshToken | src/oauth.rs:913-989 | tokens are issued if and only if the presented token is a valid, unexpired one of the client and the active one of a live family, the scopes asked for are known and held, and the file operations succeed; without a scope parameter the scopes are the presented ones; every claim of the tokens |
| OAuthProtocol.OAuthServer.AuthenticateBearer | src/oauth.rs:526-557 | accepted if and only if each claim is right, the token is unexpired and its family stored, unrevoked and unexpired; Private if and only if the claims hold kb:private |
| OAuthInvariant.StepInv | src/oauth.rs:405-502 | every step keeps the invariant tying memory, state file, histories of families, codes and waiting requests together |
| OAuthInvariant.RunInv | src/oauth.rs:405-502 | it holds in every state of every run |
| OAuthInvariant.AcceptedIsLast | src/oauth.rs:454-473 | a rotation goes through only with the most recent token of the family |
| OAuthInvariant.LockStepInv | src/oauth.rs:486-502 | each step inside a persist, failing ones included, keeps the file loadable |
| OAuthTheorems.RefreshTokenRedeemedAtMostOnce | src/oauth.rs:431-476 | in every run no refresh-token id is redeemed twice |
| OAuthTheorems.LiveFamilyAcceptsExactlyItsLastToken | src/oauth.rs:447-484 | in every reachable state a live family accepts exactly its last token, whose claimed expiry is the stored one |
| OAuthTheorems.ReplayKills | src/oauth.rs:454-469 | once the answer to a superseded token is written, the family is dead and the request refused |
| OAuthTheorems.UnwrittenReplayFoundItDead | src/oauth.rs:447-468 | if nothing had to be written, the family was dead already |
| OAuthTheorems.DeadForGood | src/oauth.rs:405-476 | a dead family stays dead in every continuation, crashes and restarts included |
| OAuthTheorems.ReplayRevokesForGood | src/oauth.rs:454-484 | after a persisted replay no refresh token of the family rotates and no access token of it authenticates, ever |
| OAuthTheorems.CrashConsistency | src/oauth.rs:370-502 | in every reachable state the file loads, exactly when it fits, as the state before or after the operation in flight, and as memory when none is |
| OAuthTheorems.RestartResumes | src/oauth.rs:370-403 | after a crash at any point the next process has the state before or after, and no codes |
| OAuthTheorems.FailedPersistChangesNothing | src/oauth.rs:405-502 | an operation of a run that took the lock and gave up in its persist, however far its writes came and whatever happened meanwhile, leaves memory, the loadable file, the families and the returned tokens as they were |
| OAuthTheorems.UninterruptedIsSettle | src/oauth.rs:405-502 | without interruption the steps of an operation do to memory and file what the store's methods are specified to do |
| OAuthTheorems.CodeIsFoundAtMostOnce | src/oauth.rs:890-897 | an attempt that finds a code burns it for the rest of the run, whether or not it succeeds |
| OAuthTheorems.CodeFoundsAtMostOneFamily | src/oauth.rs:890-910 | two families never come from one code |
| OAuthTheorems.ChainNarrows | src/oauth.rs:947-966 | along a family each later token is allowed by each earlier one |
| OAuthTheorems.NarrowingIsForGood | src/oauth.rs:947-989 | after one refresh to Tech no token issued later in the family is Private |
| OAuthTrace.BearerTracesToOwnerApproval | src/oauth.rs:753-911 | an accepted bearer traces back to registration, request, owner approval and one exchange by the same client with a verifier for its challenge and the requested, registered redirect URI, each in time, which drew the bearer's own family and signed its first token; what was registered, asked for and granted word by word; the approval allows the bearer's scopes, and if Private, all three grants were |
| OAuthTrace.BearerWasSigned | src/oauth.rs:526-621 | the bearer token itself was signed by the exchange that began its family or by a refresh of a token of that family |
| OAuthTrace.LinkWasRefreshed | src/oauth.rs:913-989 | every later token of a family is the very one signed by an earlier refresh of its predecessor that passed all checks |
| OAuthTrace.LinkWasAskedFor | src/oauth.rs:929-989 | that refresh field by field: the predecessor unexpired and its client's own, the same scopes without a scope parameter and exactly the words of one, the claims of the new token |
| OAuthTrace.PrivateBearerWasNeverNarrowed | src/oauth.rs:947-966 | the refresh token returned with a Private bearer, and every one before it but the first, was signed by a refresh that asked to stay Private |
| OAuthTrace.PrivateAllTheWay | src/oauth.rs:767-826 | a Private token needs a Private approval, request and registration |
| OAuthProgress.BearerIsAcceptedExactlyInItsLifetime | src/oauth.rs:526-583 | a returned bearer is accepted if and only if the access-token lifetime since the step that issued it is not over and its family is stored, unrevoked and unexpired |
| OAuthProgress.AcceptedBearerIsYoung | src/oauth.rs:537-583 | no accepted bearer of any run is older than that lifetime |
| OAuthProgress.LastTokenIsRefreshed | src/oauth.rs:913-989 | in every reachable state the last token of a live family, presented by its client without a scope, is exchanged for tokens of the same scopes when the file operations succeed |
| OAuthProgress.CodeIsExchanged | src/oauth.rs:869-911 | in every reachable state a held, unexpired code is exchanged for its client, redirect URI and verifier when the file operations succeed |
| Pruning.PruningIsInvisible | src/oauth.rs:405-484 | when ids are fresh and no call names a family before its expiry after the clock has been past it, the store answers every call sequence as one that never drops a family; a write that fails, for whatever reason it was needed, fails for both |
| Pruning.PruningIsInvisibleInOrder | src/oauth.rs:405-484 | so it is under a nondecreasing clock |
| Pruning.AnswerDiffersExactlyWhen | src/oauth.rs:414-452 | one answer differs if and only if the call asks about, or rotates with its active token, a dropped family that is still live at the time of the call |
| Pruning.PruningShowsWhenTheClockGoesBack | src/oauth.rs:414 | whenever the clock passes an expiry and goes back before it, a family is missed |
| Calendar.CivilFromDaysIsExact | src/inbox.rs:439-459 | every integer day gives a valid Gregorian date, whose day number is the day |
| Calendar.DateRoundTrip | src/inbox.rs:439-459 | every valid date comes back from its day number |
| Calendar.NextDayIsOneMore | src/inbox.rs:439-459 | the reference day count agrees with the calendar's successor |
| Calendar.DaysFollowTheCalendar | src/inbox.rs:439-459 | day 0 is 1970-01-01 and the next day is the next date, leap centuries included |
| Calendar.DatesOrderAsDays | src/inbox.rs:439-459 | dates order as days do |
| Calendar.NoOverflow | src/inbox.rs:422-459 | for every i64 second count no intermediate leaves i64 or is negative before an unsigned cast |
| Timestamps.PartsInRange | src/inbox.rs:422-434 | the parts of a time are in range and add up to it |
| Timestamps.FourDigitYears | src/inbox.rs:422-459 | exactly the seconds from 0000-01-01T00:00:00Z to 9999-12-31T23:59:59Z have a year of four digits |
| Timestamps.Rfc3339Order | src/inbox.rs:410-413 | for years 0000 to 9999 printed times order as times, both ways |
| Timestamps.FileTimeOrder | src/inbox.rs:400-408 | so do the time prefixes of file names |
| Timestamps.FileNamesSortByTime | src/inbox.rs:400-408 | and whole file names, whatever follows the prefix |
| Timestamps.Rfc3339RoundTrip | src/inbox.rs:410-413 | parsing the printed form returns the second |
| NoteNames.SlugOf | src/inbox.rs:369-398 | the loop computes the joined runs of the title, cut to 40 characters, trimmed, never empty |
| NoteNames.JoinedKeepsLetters | src/inbox.rs:369-389 | joining drops and reorders none of the characters that count |
| NoteNames.SlugImage | src/inbox.rs:369-398 | the image of slug is exactly the strings of at most 40 characters made of runs joined by single hyphens; slug is idempotent |
| NoteNames.ShortTitlesAreKept | src/inbox.rs:369-398 | a title whose joined letters have at most 40 characters is kept whole, one without letters is called note |
| NoteNames.GeneratedNamesAreSafe | src/inbox.rs:265-273 | every generated name passes the last check, so InvalidFileName is unreachable |
| NoteNames.AttemptsAreDistinct | src/inbox.rs:400-408 | the names tried for one note are pairwise distinct |
| NoteNames.NamesShowTheTime | src/inbox.rs:400-413 | a file name is the note's timestamp without colons, the slug and the attempt |
| NoteNames.SlugsMayShareNames | src/inbox.rs:400-408 | names of different slugs can be equal |
| FrontMatter.RenderNote | src/inbox.rs:350-366 | refuses front matter with a fence, otherwise builds exactly the note text |
| FrontMatter.FrontMatterIs | src/inbox.rs:350-353 | the stored front matter is the serializer's output without a leading fence line and trailing newlines, and nothing else |
| FrontMatter.DelimiterIsWhereItWasWritten | src/document.rs:335-347 | the first delimiter after the opening one is the one that was written |
| FrontMatter.SplitUndoesRender | src/document.rs:335-347 | splitting a rendered note gives back front matter and body, fences in the body included |
| FrontMatter.FenceCheckIsNeeded | src/inbox.rs:354-356 | without the fence check it does not |
| InboxStore.StoredNoteReadsBack | src/document.rs:305-347 | a stored note read whole, decoded and split is what was rendered |
| InboxStore.OccurredIsADateExactlyWithinItsMonth | src/inbox.rs:290-307 | an accepted date exists exactly when its day is within its month; February 31 is accepted |
| InboxStore.TrimIs | src/inbox.rs:275-276 | trimming takes all whitespace from both ends and nothing else |
| InboxStore.DatesExactly | src/inbox.rs:290-307 | the accepted dates are exactly the texts of a four-digit year, a month to 12 and a day to 31 |
| InboxStore.InboxStore.RendersExactly | src/inbox.rs:142-148 | which error each unacceptable field gets, in the order of the checks, and otherwise the note of this title, time, date, fingerprint and body |
| InboxStore.InboxStore.UsedBytes | src/inbox.rs:181-200 | the sum of the regular files, saturating |
| InboxStore.InboxStore.CreateExclusive | src/inbox.rs:213-231 | creates an empty entry if the name is free, otherwise changes nothing |
| InboxStore.InboxStore.Store | src/inbox.rs:156-174 | appends one entry under the first free name, holding the whole note on success and a prefix after a failed write; NameExhausted if and only if all 64 names exist |
| InboxStore.InboxStore.CreateNote | src/inbox.rs:134-175 | each refusal if and only if its field is at fault, in order; on success one entry more, under the first free name for the time and title, that decodes and splits into this request's front matter and body, and a receipt with its id and size; the exact quota condition and the quota kept by a call on its own |
| QuotaBound.StepKeepsInv | src/inbox.rs:134-231 | every step of overlapping calls keeps names, files, scans and the race inequality |
| QuotaBound.QuotaHolds | src/inbox.rs:151-200 | with at most k calls in flight the total never exceeds the quota by more than k - 1 notes |
| QuotaBound.OneWriterStaysWithinQuota | src/inbox.rs:151-164 | calls one at a time never exceed it |
| QuotaExcess.EveryExcessIsReached | src/inbox.rs:151-200 | from every directory, any notes that each fit beside it can all be stored by as many calls in flight, never more than one past the check |
| QuotaExcess.ServerNotesReachEveryExcess | src/inbox.rs:151-200 | with the names the server generates, for notes filed in different seconds |
| QuotaExcess.QuotaBoundIsExact | src/inbox.rs:177-200 | runs with at most k calls in flight and notes of at most M bytes exceed the quota by at most e if and only if e is at least (k - 1) * M |
| QuotaExcess.UndisturbedCallIsCreateNote | src/inbox.rs:151-174 | a call whose directory has not changed decides on quota and names as the sequential call does |
| QuotaBound.InboxIsAppendOnly | src/inbox.rs:156-174 | in every run old entries keep their contents, each call adds at most one entry holding a prefix of its note, all of it once stored, and NameExhausted means all 64 names exist |
| QuotaBound.ExhaustionTakesAsManyEntries | src/inbox.rs:156-174 | a call that gives up for want of a name has 64 entries in its way |
| QuotaBound.NamesStayDistinct | src/inbox.rs:213-231 | no two entries ever share a name |
| TokenBucket.LevelIsTheMinimum | src/auth.rs:218-228 | the level before a decision is the minimum over all windows of what they allow and have not used |
| TokenBucket.DeniedExactlyWhenAWindowIsFull | src/auth.rs:218-228 | a denial occurs if and only if one more grant would overfill some window |
| TokenBucket.WindowBound | src/auth.rs:218-228 | every window grants at most capacity plus rate times the time that passed forwards |
| TokenBucket.ClockBound | src/auth.rs:243-254 | in clock time the bound grows by the rate times the backward movement |
| TokenBucket.OrderedClockBound | src/auth.rs:243-254 | and is capacity plus rate times length for ordered times |
| TokenBucket.CreationDoesNotMatter | src/auth.rs:246-249 | a bucket created at its first check decides as one full since any moment |
| TokenBucket.Bucket.Take | src/auth.rs:218-228 | keeps the bucket at the level its whole sequence of checks determines, and decides by it |
| TokenBucket.RateLimiter.Check | src/auth.rs:243-254 | the decision is that of a bucket of the credential's own, untouched by other credentials |
| TokenBucket.WriteRateLimiter.Check | src/auth.rs:290-298 | one bucket for all callers decides by every check since startup |
| TokenBucket.AnyHourGrantsAtMostTwice | src/auth.rs:281-298 | any hour grants at most twice the hourly number of writes |
| TokenBucket.TwiceIsReached | src/auth.rs:281-298 | and, whatever the limit, two bursts an hour apart reach that |
| Utf8.ReadUtf8Limited | src/document.rs:305-319 | a truncated read is the longest valid prefix of the limit and never fails; an untruncated one is the file or InvalidUtf8 |
| Utf8.TruncationLosesAtMostThree | src/document.rs:310-315 | if the file is valid at most three bytes of the limit are lost |
| Utf8.LongestValidPrefixIsUnique | src/document.rs:310-315 | only one text is that prefix |
| Utf8.EncodeUndoesDecode | src/document.rs:317 | every valid byte sequence decodes to the text it encodes |
| Utf8.DecodeUndoesEncode | src/document.rs:317 | and every text encodes to valid bytes that decode to it |
| DocumentIds.AcceptedIdStartsAtItsTopLevel | src/document.rs:22-69 | an accepted id begins with a plain visible name, which is its top level |
| DocumentIds.NothingLeadsUp | src/document.rs:38-48 | and holds no parent component |
| DocumentIds.AcceptsExactly | src/document.rs:22-51 | which ids are accepted, piece by piece, in both directions |
| DocumentIds.TopLevelOfJoin | src/document.rs:61-69 | a path built below a plain name has it as its top level |
| Documents.ConfiguresExactly | src/config.rs:38-64 | scope directories are accepted if and only if both sets are nonempty, hold plain names, are disjoint and leave out the inbox |
| Documents.SafeFileNamesStayInside | src/inbox.rs:265-273 | a safe file name is one visible path component ending in .md |
| Documents.DocumentStore.CandidateIds | src/document.rs:189-239 | the listed ids in strictly ascending order, each once, or the first error met |
| Documents.DocumentStore.CandidatesAreTheListedIds | src/document.rs:189-239 | the candidates are exactly the index and what the directories of the scope list |
| Documents.DocumentStore.CandidatesExactly | src/document.rs:189-239 | the candidates are exactly the index and the paths of the Markdown files that walks of the scope's directories yield |
| Documents.DocumentStore.ListingFailsExactly | src/document.rs:207-233 | listing fails if and only if such a walk breaks off or yields a Markdown file whose path is no id |
| Documents.DocumentStore.CandidatesAreAllowed | src/document.rs:161-175 | every candidate is a valid id that the scope may read |
| Documents.DocumentStore.TechIsWithinPrivate | src/document.rs:161-204 | Tech candidates and permissions are among the Private ones |
| Documents.DocumentStore.TechSeesOnlyThePublicPart | src/document.rs:189-258 | knowledge bases that agree on the index, the public directories and the ignore files give a Tech caller the same listing and the same answer to every fetch |
| Documents.DocumentStore.FetchesExactly | src/document.rs:241-361 | a fetch succeeds if and only if the accepted id is in scope and its names lead to a readable regular file with valid text, and gives that text, the truncation and what its front matter says |
| Documents.DocumentStore.NotesAreNeverReadable | src/config.rs:51-57 | no id in the inbox is allowed, fetched or listed under any scope |
| Documents.SameResolution | src/document.rs:260-282 | where an id leads depends only on the top-level entry it begins with |
| Search.Searcher.RankingIsExactlyTheMatches | src/search.rs:55-69 | the ranking holds exactly the readable candidates with every term, score descending, then id ascending |
| Search.Searcher.RankingIsUnique | src/search.rs:64-69 | nothing else is such a ranking |
| Search.Searcher.Search | src/search.rs:42-132 | invalid queries and limits, listing and read errors, and otherwise the page of the ranking of what is found word by word |
| Search.Searcher.FindsExactly | src/search.rs:109-148 | a candidate is found if and only if it can be read and each word of the query occurs in its id, title, description or text, and scores 100, 80, 50 and 10 for each word in each of them, with its own id, title and description |
| Search.Searcher.RankingRanksWhatIsFound | src/search.rs:55-69 | the ranking is all that is found, by score and then by id |
| Search.Searcher.EveryResultHasEveryWord | src/search.rs:117-124 | every result returned is of a readable candidate with every word |
| Search.SizeIsThatOfTheText | src/search.rs:76-84 | the size compared with the limit is that of the text sent |
| Search.LinesOfParts | src/search.rs:151 | what the lines of every text are |
| Search.Searcher.Fill | src/search.rs:71-91 | the loop returns a prefix of the ranking within limit and size that could not take one more, truncated if and only if a match is omitted |
| Search.PageIsUnique | src/search.rs:71-91 | that determines the response |
| Search.PageFits | src/search.rs:80-88 | the response fits whenever an empty one would |
| Search.LongerPagesLeaveNoRoom | src/search.rs:76-88 | any longer response would fill the limit at least exactly |
| Search.ResultIsLostExactlyWhen | src/search.rs:71-91 | a longer response would have fitted if and only if every match is within the limit and some but not all of them fill the permitted bytes exactly |
| Search.AtMostOneResultIsLost | src/search.rs:71-91 | it would have been longer by one result |
| Search.OneResultMayBeLost | src/search.rs:76-88 | this happens with any three results |
| Search.Searcher.TechSearchSeesOnlyThePublicPart | src/search.rs:42-92 | knowledge bases that agree on what is public give a Tech caller the same answer to every search |
| Search.Searcher.SnippetLinesEncloseTheFirstMatch | src/search.rs:150-164 | the line numbers of a snippet enclose the first line with the term; at most five lines and 601 characters |
| Search.Searcher.MatchIsShownExactlyWhenItFits | src/search.rs:150-164 | the text shows that line whole if and only if the lines up to it fit in the 600 characters, or run one over with the ellipsis itself |
| Search.Searcher.SnippetMayHideTheMatch | src/search.rs:158-162 | a line of 600 characters before it hides the match altogether |

## Left out

- HTTP routing, MCP tool dispatch, response headers, the consent page, audit logging and environment parsing: no run-level property.
- The bytes of HMAC, SHA-256, base64, JSON and YAML: an injective MAC, an abstract challenge function, an encoder with a round trip, and parameters for the rest. Length limits on signed values and token prefixes are not modelled.
- Client authentication and redirect-URI validation: a request carries the client it was authenticated as, or none.
- The `state` parameter echoed to the browser and the redirect URL that carries a code.
- Several clock readings inside one operation are separate inputs where the code keeps them; those of one `retain` over codes are one input.
- QuotaBound.QuotaHolds: takes a quota below the largest u64, as the configuration guarantees (src/config.rs:386-392); at the largest u64 the saturating sum never exceeds it.
- Power loss and partial directory updates: rename and exclusive create are atomic, crashes are those of the process.
- The step system starts from no state file; state files from elsewhere are covered by `Open` and the store's methods only.
- Mutex poisoning, and floating-point rounding in the buckets.
- The kernel's directory listing: it returns every entry that was there when a scan began, and any of the later ones. Writers other than the server are not modelled.
- A scope directory that is itself a symbolic link: `Special` nodes hold no target, so a listing cannot depend on one. Errors of opening other than not found are one error.
- The `ignore` walker: an arbitrary deterministic function of the directory and the ignore files outside it.
- Names that are not valid Unicode, and Unicode case folding: strings are sequences of characters and `to_lowercase` is a parameter.
- TokenBucket.RateLimiter.Check: never drops a bucket, as in the code; memory use is not modelled.
- Search.Searcher.Search: response sizes take the serialized size of each result as given.
