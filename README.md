# MotoRise support portal: chat bot, tickets and login, modelled in Dafny

The portal is a customer-support site for an electric-scooter brand. This project models the
part of it that makes decisions.

- **Answer engine** (`useChat`): decides whether a chat question is about an order and, if so,
  answers from the customer's orders.
  - Otherwise it tokenises the question, expands the terms through a fixed synonym table and
    scores every FAQ with tiered points, bonuses and three domain rules.
  - It returns the first best FAQ's response when its score reaches a threshold, and a
    generic reply otherwise.
- **Chat hook**: sending a question (validated, with an optional uploaded file, answered and
  stored) and marking an answer as unsatisfying, which escalates it to a ticket.
- **Ticket workflow** (`useTickets`): the tickets a user may see, the responses per ticket,
  status updates, and an administrator's response, which moves an open ticket to in progress.
- **Support chat page**: a keyword-cascade canned responder and an append-only message list.
- **Session** (`AuthContext`): logged out or logged in, with the role decided by a fixed list
  of administrator numbers.
- **Login form**: a two-step machine, phone then one-time password.

Modules, one per file:

- `Wrappers` (`wrappers.dfy`): `Option`, and `Lookup`, the answer of a store read.
- `Text` (`text.dfy`): the JavaScript string operations the code uses. These are ASCII
  `toLowerCase`, the `\w`/`\s` classes, `includes`, `split(' ')`, `join` and `trim`.
- `Auth` (`auth.dfy`): roles, the user record and the session class.
- `Login` (`login_form.dfy`): the login form class.
- `Orders` (`orders.dfy`): the order-query router, the `ORD…` identifier matcher and the reply
  formats.
- `Faq` (`faq.dfy`): tokenisation, synonyms, scoring, selection, and the answer engine step by
  step as methods with loops.
- `Chat` (`chat.dfy`): the chat hook's message list, sending, and escalation.
- `Tickets` (`tickets.dfy`): the ticket desk class.
- `SupportChat` (`support_chat.dfy`): the canned responder and its message window.

The backing store, the file storage and the clock are not modelled. Each call into them is
a parameter saying how it went:

- A read is a `Lookup`: `Failed`, or `Found(rows)` with the rows in query order.
- A write is a success flag or the generated row fields.
- An upload is the public URL, or none when it failed.
- The date formatting of `toLocaleDateString` is a function parameter `formatDate`.

## Model

| member | source | states |
|---|---|---|
| Text.Lower | src/hooks/useChat.ts:58 | lower-casing keeps the length and leaves no upper-case letter |
| Text.StripPunct | src/hooks/useChat.ts:132 | removing punctuation keeps only word characters and white space, all taken from the input, and keeps every word or white-space character of the input |
| Text.StripPunctCounts | src/hooks/useChat.ts:132 | each word or white-space character occurs in the result exactly as often as in the input |
| Text.StripPunctAppend | src/hooks/useChat.ts:132 | removing punctuation works character by character: on a concatenation it is the concatenation of the results, so the kept characters stay in order |
| Text.IsWordChar | src/hooks/useChat.ts:132 | `\w`: an ASCII letter of either case, a digit or `_` |
| Text.IsSpace | src/hooks/useChat.ts:132 | `\s` and what `trim()` removes: tab, LF, vertical tab, form feed, CR, space, no-break space, U+1680, U+2000-U+200A, U+2028, U+2029, U+202F, U+205F, U+3000 and the byte order mark |
| Text.Normalize | src/hooks/useChat.ts:131-132 | `toLowerCase().replace(/[^\w\s]/g, '')`: lower-casing, then removing every character that is neither a word character nor white space (also the FAQ texts at lines 155-156) |
| Faq.NormalizeIdempotent | src/hooks/useChat.ts:155-156 | the normal form holds no upper-case letter and only word characters and white space, so normalising it again changes nothing |
| Text.Contains | src/hooks/useChat.ts:62 | `includes`; `Text.ContainsIff` characterises it |
| Text.ContainsIff | src/hooks/useChat.ts:62 | `includes` holds exactly when the pattern occurs at some position of the string |
| Text.Split | src/hooks/useChat.ts:133 | `split(' ')` gives at least one piece and no piece holds the separator |
| Text.Join | src/hooks/useChat.ts:87-89 | `join('\n')` puts one separator between consecutive pieces: its length is the pieces' total plus one less than their number (round trips in `Text.JoinSplit` and `Text.SplitJoin`) |
| Text.JoinSplit | src/hooks/useChat.ts:133 | joining the pieces of a split gives the original string back |
| Text.SplitJoin | src/hooks/useChat.ts:87-89 | splitting a join gives the pieces back when no piece holds the separator |
| Text.TokenContained | src/hooks/useChat.ts:171-175 | an exact word of a split string is also a substring of it, so the word tier implies the substring tier |
| Text.Trim | src/hooks/useChat.ts:287 | `trim()` is a slice of the string with only white space before and after it; it is empty exactly when the string is blank, and a non-empty result neither starts nor ends with white space |
| Text.IsBlank | src/hooks/useChat.ts:287 | `!question.trim()` (and `!newMessage.trim()` at src/pages/ChatInterface.tsx:50): every character is white space, the empty string included; `Text.Trim` proves the trimmed string is empty exactly then |
| Text.LowerIdempotent | src/pages/ChatInterface.tsx:79 | lower-casing twice is lower-casing once |
| Auth.RoleFor | src/contexts/AuthContext.tsx:42 | the role is admin iff the phone exactly equals one of the two hard-coded administrator numbers |
| Auth.NameFor | src/contexts/AuthContext.tsx:49 | the name is `Admin User` iff the role is admin and `Customer User` iff it is customer |
| Auth.NewUser | src/contexts/AuthContext.tsx:42-50 | the new user keeps the given id and phone unchanged, is admin iff the phone is an administrator number, and is named `Admin User` when admin and `Customer User` otherwise |
| Auth.ActivePhone | src/hooks/useChat.ts:56 | `user?.phone` is present iff someone is logged in with a non-empty phone, and is that phone |
| Auth.AuthSession.constructor | src/contexts/AuthContext.tsx:23-33 | on mount the session holds the persisted user and is no longer loading |
| Auth.AuthSession.Login | src/contexts/AuthContext.tsx:35-56 | login ignores the password, sets the user built from the phone, persists the same user, and ends loading |
| Auth.AuthSession.Logout | src/contexts/AuthContext.tsx:58-61 | logout clears the user and the persisted copy |
| Login.RedirectFor | src/components/auth/LoginForm.tsx:50-55 | the redirect is `/admin` iff the stored user is an administrator, else `/chat` |
| Login.LoginForm.constructor | src/components/auth/LoginForm.tsx:12-15 | the form starts at the phone step with empty inputs, not submitting |
| Login.LoginForm.SetPhone | src/components/auth/LoginForm.tsx:112 | the phone input holds the typed value and nothing else changes |
| Login.LoginForm.SetOtp | src/components/auth/LoginForm.tsx:133 | the password input holds the typed value and nothing else changes |
| Login.LoginForm.HandlePhoneSubmit | src/components/auth/LoginForm.tsx:21-32 | the step moves to the password step iff the phone has at least ten characters; otherwise it stays |
| Login.LoginForm.HandleOtpSubmit | src/components/auth/LoginForm.tsx:34-70 | a password whose length is not six is refused and nothing changes, the session's loading flag included; otherwise login runs, the route follows the stored role, and submitting and loading end false |
| Login.LoginForm.GoBack | src/components/auth/LoginForm.tsx:72-79 | from the password step, back to the phone step with the password cleared and the phone kept; from the phone step, only a navigation to `/` |
| Orders.MatchEndAt | src/hooks/useChat.ts:65 | the hand matcher finds an end `q` for a start `p` exactly when `\bORD\d+[A-Z0-9]*\b` (case-insensitive) matches `s[p..q]` |
| Orders.HasOrderKeyword | src/hooks/useChat.ts:61-62 | a question routes by keyword iff one of the six keywords of the list occurs in it as a substring |
| Orders.KeywordSurvivesContext | src/hooks/useChat.ts:61-62 | text added before or after a question that routes by keyword does not stop it routing |
| Orders.FirstOrdMatch | src/hooks/useChat.ts:65 | the match found is the leftmost one, and none is found only when there is no match at all |
| Orders.OrderIdIn | src/hooks/useChat.ts:65 | an identifier is extracted iff the question contains a match of the pattern, and it is the text of the leftmost match, in its original case; it has at least four characters with a digit after `ORD` |
| Orders.IsOrdMatch | src/hooks/useChat.ts:65 | the declarative reading of the pattern (word boundary, `ORD` in any case, a digit, letters and digits, word boundary) against which `Orders.OrderIdIn` is proved |
| Orders.OrderLines | src/hooks/useChat.ts:87-89 | one `id - product (status)` line per order, in lookup order |
| Orders.OrderLine | src/hooks/useChat.ts:88 | an order's line starts with its identifier and contains its product and status, with six characters of punctuation around them |
| Orders.Describe | src/hooks/useChat.ts:84-96 | the sentence for one order starts with `Your order ` and names its id, product, status and formatted date |
| Orders.OrdersList | src/hooks/useChat.ts:87-89 | a single order is listed as its own line, and every order's line occurs in the list |
| Orders.OrderReply | src/hooks/useChat.ts:67-110 | the trouble text exactly when the order read failed, the no-orders text exactly when it found none, and never an empty reply |
| Orders.FindOrder | src/hooks/useChat.ts:80-82 | the order found is the first whose id equals the mentioned id ignoring case; none is found only when no id equals it |
| Orders.CheckOrderStatus | src/hooks/useChat.ts:55-114 | there is an order reply iff there is a phone and the lower-cased question contains an order keyword or the question contains an identifier; a reply is never empty |
| Orders.OrdersListLines | src/hooks/useChat.ts:87-89 | the order list reads back, line by line, as the orders in lookup order when no field contains a newline |
| Orders.ExplicitIdReply | src/hooks/useChat.ts:79-91 | with an identifier, the first order matching it ignoring case is described alone; otherwise the reply names the identifier and lists every order |
| Orders.NoIdReply | src/hooks/useChat.ts:92-105 | without an identifier: no orders, the fixed "couldn't find any orders" text; one order, its sentence; two or more, the full list |
| Orders.LookupFailureReply | src/hooks/useChat.ts:107-110 | a failed order read gives the fixed "trouble checking your order status" reply |
| Orders.PlacementQuestionGoesToLookup | src/hooks/useChat.ts:61-62 | "How do I place an order?" takes the order path: there is no placement exception |
| Faq.KeepSearchTerms | src/hooks/useChat.ts:134-135 | the filters keep exactly the tokens longer than two characters that are not stop words, with their repetitions |
| Faq.KeepSearchTermsAppend | src/hooks/useChat.ts:134-135 | the filters work token by token: on a concatenation they keep the kept terms of each part, in order |
| Faq.ShortTokensDropped | src/hooks/useChat.ts:131-135 | the search terms of "xyz qq" are exactly `xyz` |
| Faq.SingleWordTerms | src/hooks/useChat.ts:131-135 | a clean lower-case word that passes the filters is its own only search term |
| Faq.SearchTerms | src/hooks/useChat.ts:131-135 | the search terms are exactly the pieces of the normalised question, split on single spaces, that are longer than two characters and not stop words; none holds a space |
| Faq.IsSearchTerm | src/hooks/useChat.ts:134-135 | the two filters: longer than two characters and not one of the forty stop words |
| Faq.SynonymsOf | src/hooks/useChat.ts:163-164 | a term has synonyms iff it is an own entry of the table, and then they are exactly that entry |
| Faq.SynonymExpansion | src/hooks/useChat.ts:162-166 | the synonyms pushed term by term, in term order (the reference `Faq.ExpandSearchTerms` is proved equal to) |
| Faq.SynonymExpansionMembers | src/hooks/useChat.ts:162-166 | a string is pushed exactly when it is listed as a synonym of one of the terms |
| Faq.ExpandedTerms | src/hooks/useChat.ts:161-166 | `expandedSearchTerms` starts with a copy of the search terms, the synonyms after them |
| Faq.SynonymTableAsymmetric | src/hooks/useChat.ts:147 | `delayed` lists `late`, but `late` has no synonyms |
| Faq.ExpandSearchTerms | src/hooks/useChat.ts:161-166 | the expanded terms are the terms followed by each term's synonyms in term order |
| Faq.NoTableTermNoExpansion | src/hooks/useChat.ts:161-166 | terms that are not table entries add no synonyms |
| Faq.NoTableTermNoSynonymPoints | src/hooks/useChat.ts:161-197 | a question without table terms gets no synonym points |
| Faq.AddTierPoints | src/hooks/useChat.ts:169-186 | the tier pass adds, per original term, the points of its first tier: 15 word in the question, 8 substring of the question, 3 word in the response, 1 substring of the response |
| Faq.TermPointsPositiveIffMatches | src/hooks/useChat.ts:169-186 | a term earns points iff it occurs in the FAQ's question or response, and at most fifteen |
| Faq.TermPoints | src/hooks/useChat.ts:170-185 | a term earns 15, 8, 3, 1 or nothing (its relation to matching is `Faq.TermPointsPositiveIffMatches`) |
| Faq.OriginalScore | src/hooks/useChat.ts:169-186 | the tier points of all original terms are at most fifteen per term |
| Faq.SynonymPoints | src/hooks/useChat.ts:191-195 | an expanded term earns 5, 2 or nothing, and earns something exactly when it occurs in the FAQ's question |
| Faq.SynonymScore | src/hooks/useChat.ts:189-197 | the synonym points are at most five per expanded term |
| Faq.OriginalScoreAppend | src/hooks/useChat.ts:169-186 | the tier points of a concatenation add up, so a repeated term scores once per occurrence |
| Faq.AllWordsTopTier | src/hooks/useChat.ts:171-172 | when every term is a word of the FAQ's question, the tier points are 15 per term |
| Faq.AddSynonymPoints | src/hooks/useChat.ts:189-197 | the synonym pass adds 5 (word of the question) or 2 (substring of the question) per expanded term that is not an original term, never from the response |
| Faq.OriginalsEarnNoSynonymPoints | src/hooks/useChat.ts:190 | expanded terms that are original terms earn no synonym points |
| Faq.MatchCount | src/hooks/useChat.ts:200-202 | the number of matching terms is at most the number of terms |
| Faq.Matches | src/hooks/useChat.ts:200-202 | a term matches when it occurs in the question or the response; `Faq.TermPointsPositiveIffMatches` ties it to the tier points |
| Faq.CoverageBonus | src/hooks/useChat.ts:199-212 | the bonuses are at least three per matching term when more than one matches, at least five when half the terms match, zero when at most one matches and less than half do, and at most 3n + 10 |
| Faq.DomainAdjustment | src/hooks/useChat.ts:214-234 | the domain rules move a score by between -15 and +40, not at all without a schedule or delay question, and never down for an FAQ that does not mention `delayed` or for a question that is not about schedules |
| Faq.ScheduleQuestion | src/hooks/useChat.ts:218-219 | a schedule question iff the raw lower-cased question contains `service` together with `interval` or `schedule`, or `maintenance` together with `schedule` |
| Faq.DelayQuestion | src/hooks/useChat.ts:230 | a delay question iff the raw lower-cased question contains `delayed`, `late` or `postponed` as substrings, so `late` also fires inside `translate` (`Faq.LateInsideTranslate`) |
| Faq.MentionsDelayed | src/hooks/useChat.ts:224 | the FAQ's normalised question or response contains `delayed` (the same test as line 231) |
| Faq.LateInsideTranslate | src/hooks/useChat.ts:229-234 | the delay rule tests substrings of the raw question, so "Can you translate the manual" counts as a delay question |
| Faq.FaqScore | src/hooks/useChat.ts:154-234 | an FAQ's score is at least its tier points minus the 15-point penalty, and at least its tier points when the question is not about schedules |
| Faq.OriginalScoreBounds | src/hooks/useChat.ts:169-202 | the tier points lie between one and fifteen times the number of matching terms |
| Faq.ScoreFaq | src/hooks/useChat.ts:154-234 | one FAQ's score is the tier points plus synonym points plus the two bonuses (integer form of the ratio) plus the three domain rules, tested on the raw lower-cased question |
| Faq.Scores | src/hooks/useChat.ts:154-240 | one score per FAQ, in list order |
| Faq.SelectBest | src/hooks/useChat.ts:151-240 | the FAQ loop's `bestMatch`/`bestScore` are those of the first FAQ of strictly greatest positive score |
| Faq.Pick | src/hooks/useChat.ts:236-239 | the choice is at least every score, positive when there is one, and earlier FAQs score strictly less: ties keep the earliest |
| Faq.Threshold | src/hooks/useChat.ts:243 | the threshold is the larger of 12 and four times the number of terms |
| Faq.Selected | src/hooks/useChat.ts:236-248 | an FAQ is selected iff there are terms and the highest score reaches the threshold; then it is the first FAQ of highest score |
| Faq.ExactQuestionMatchClearsThreshold | src/hooks/useChat.ts:169-245 | an FAQ whose question has every term as a word, and which does not mention `delayed`, reaches the threshold |
| Faq.FaqReply | src/hooks/useChat.ts:137-253 | no search terms give the generic reply; when an FAQ is selected the reply is its response, otherwise the generic reply |
| Faq.FaqReplyNeverProcessingError | src/hooks/useChat.ts:245-256 | the FAQ reply is never the processing apology unless an FAQ's response is that text |
| Faq.ChatReply | src/hooks/useChat.ts:116-257 | the answer is the order reply when there is one, else the apology when the FAQ read fails, else the FAQ reply (the selected FAQ's response or the generic reply) |
| Faq.SearchFaqs | src/hooks/useChat.ts:116-258 | the step-by-step engine computes exactly the answer `ChatReply` defines |
| Faq.MatchFaqs | src/hooks/useChat.ts:131-253 | after the FAQ read, the terms, the FAQ loop and the threshold test compute exactly `FaqReply` |
| Faq.FaqReplyAsWritten | src/hooks/useChat.ts:163-164 | as written, the reply is the apology or the corrected reply, and the corrected reply whenever no term is an inherited name or the FAQ list is empty |
| Faq.InheritedNameBreaksSearch | src/hooks/useChat.ts:163-164 | with an inherited name among the terms and a non-empty FAQ list, the code as written answers with the processing apology, while the corrected engine never does unless an FAQ's response is that text |
| Faq.ConstructorIsInheritedTerm | src/hooks/useChat.ts:131-164 | the question "constructor" has exactly one search term, itself, and it is an inherited name |
| Chat.TicketTitle | src/hooks/useChat.ts:416-418 | the title is the question when it has at most fifty characters, otherwise its first fifty followed by `...`; never longer than 53 |
| Chat.TicketTitleIdempotent | src/hooks/useChat.ts:416-418 | the title of a title is the title |
| Chat.MarkUnsatisfied | src/hooks/useChat.ts:431-435 | messages with that id get the flag set and nothing else changed; every other message is unchanged |
| Chat.MarkUnsatisfiedIdempotent | src/hooks/useChat.ts:431-435 | marking twice is marking once |
| Chat.FindMessage | src/hooks/useChat.ts:391 | the message found is the first with that id; none only when no message has it |
| Chat.SearchInput | src/hooks/useChat.ts:315 | the searched text is the question when it is not empty, and `File uploaded` when it is |
| Chat.StoredQuestion | src/hooks/useChat.ts:332 | the stored question is the trimmed question, or `File uploaded` when the question is blank |
| Chat.ChatSession.constructor | src/hooks/useChat.ts:24-26 | the hook starts with no messages, not typing |
| Chat.ChatSession.SendMessage | src/hooks/useChat.ts:279-386 | invalid input (no phone, or blank text without a file), upload failure, a failed insert and an insert returning no row are each rejected as such, exactly in those cases, and only a stored row is appended; the row holds the phone, the stored question, the engine's answer and the file URL |
| Chat.ChatSession.MarkAsUnsatisfied | src/hooks/useChat.ts:388-441 | an unknown id or a failed update changes nothing; otherwise the escalation carries the first such message's phone, file and ticket title, and the list is marked |
| Tickets.SetStatus | src/hooks/useTickets.ts:158-160 | the status update changes the status of the tickets with that id and leaves every other ticket unchanged |
| Tickets.SetStatusLastWins | src/hooks/useTickets.ts:158-160 | of two updates of the same ticket the later one wins |
| Tickets.SetStatusTouchesOne | src/hooks/useTickets.ts:158-160 | with unique ids an update changes exactly one ticket |
| Tickets.StatusOf | src/hooks/useTickets.ts:239-240 | the status found is that of the first ticket with that id, and none only when no ticket has it |
| Tickets.VisibleTickets | src/hooks/useTickets.ts:44-53 | an administrator sees every ticket in the store's order; a customer sees exactly the tickets with their own phone, and never more rows than the store holds |
| Tickets.VisibleTicketsAppend | src/hooks/useTickets.ts:44-53 | the filter works row by row: the visible part of a concatenation is the concatenation of the visible parts, so the newest-first order and repetitions survive |
| Tickets.VisibleTicketsSingle | src/hooks/useTickets.ts:50-53 | one row is visible exactly to an administrator or to the customer whose phone it carries |
| Tickets.StoredText | src/hooks/useTickets.ts:224 | an empty response text is stored as null, any other as itself |
| Tickets.TicketDesk.constructor | src/hooks/useTickets.ts:31-33 | the desk starts empty, not loading |
| Tickets.TicketDesk.LoadTickets | src/hooks/useTickets.ts:37-78 | without a phone nothing changes; otherwise the visible tickets replace the list unless the read fails, and loading ends |
| Tickets.TicketDesk.LoadTicketResponses | src/hooks/useTickets.ts:80-100 | only that ticket's entry is replaced, and nothing changes when the read fails |
| Tickets.TicketDesk.UpdateTicketStatus | src/hooks/useTickets.ts:141-174 | on success the list is the status update of the old list; on failure it is unchanged |
| Tickets.TicketDesk.RespondToTicket | src/hooks/useTickets.ts:202-259 | a response is sent iff there is a phone, text or a file, the upload succeeds and the insert succeeds; otherwise nothing changes; after sending, an open ticket moves to in progress and the responses are reloaded |
| Tickets.ResponseAdvancesOnlyOpen | src/hooks/useTickets.ts:238-242 | after a response an open ticket is in progress, any other status is kept, and other tickets are unchanged |
| SupportChat.SupportResponse | src/pages/ChatInterface.tsx:78-92 | the battery reply iff `battery` occurs; brake iff `brake` without `battery`; speed, charging and default in priority order, each as an if-and-only-if |
| SupportChat.RepliesDistinct | src/pages/ChatInterface.tsx:82-90 | the five canned replies have different lengths, so the reply identifies the keyword group |
| SupportChat.SupportResponseIgnoresCase | src/pages/ChatInterface.tsx:79 | the reply does not depend on letter case |
| SupportChat.ChatWindow.constructor | src/pages/ChatInterface.tsx:27-37 | the window starts with the welcome message, an empty input, not typing |
| SupportChat.ChatWindow.SetNewMessage | src/pages/ChatInterface.tsx:183 | the input holds the typed value and nothing else changes |
| SupportChat.ChatWindow.HandleSendMessage | src/pages/ChatInterface.tsx:48-63 | a blank input changes nothing; otherwise exactly one sent user message with the untrimmed text is appended, the input is cleared and typing starts |
| SupportChat.ChatWindow.DeliverSupportReply | src/pages/ChatInterface.tsx:65-75 | the reply to the sent text is appended as a read support message and typing stops |

## Left out

- The store, the file storage and the network are parameters, not modelled code. This covers:
  - reads and inserts;
  - `uploadFile` and `uploadResponseFile` (only whether they produced a URL);
  - the ordering done by the queries (rows arrive in query order).
- `loadChatHistory` (src/hooks/useChat.ts:35-53) is left out because it only copies a store read into the list.
- `createTicket` (src/hooks/useTickets.ts:102-139) is left out because it only inserts a row and shows a toast.
- The `useEffect` triggers that reload on a phone change are left out.
- The `chat` join on tickets is left out.
- Toasts, console logging, timers and the random and time-based ids are left out. Ids and creation times are parameters. The two-second delay of the support page's reply is the separate `DeliverSupportReply` call.
- Local storage is the field `AuthSession.stored`. JSON encoding is not modelled.
- Login never fails in the code, so the login form's failure branch and `login`'s transient `isLoading = true` are not modelled.
- The transient `isSubmitting = true` while login runs is not modelled.
- `sendMessage`'s own apology for a failing answer engine (src/hooks/useChat.ts:317-320) is not modelled: the engine catches its own errors, so that branch is unreachable.
- `sendMessage` rewords "Failed to fetch" errors (src/hooks/useChat.ts:378-380). The model keeps error kinds, not message texts.
- `Text.Lower` folds ASCII letters only. JavaScript's `toLowerCase` also folds other letters, including a few that lower-case to ASCII, such as the Kelvin sign. Keyword tests on text with such letters can differ.
- String lengths count characters, not UTF-16 code units. Characters outside the Basic Multilingual Plane count twice in JavaScript. This affects the ten-character phone check, the six-character password check, the two-character term filter and the fifty-character title cut.
- Faq.ScoreFaq: the relevance bonus is computed as `2m >= n` and `(10m)/n` instead of `Math.floor(m / n * 10)` on doubles. The two agree for the ratios that reach one half, but that agreement is not proved here.
- Faq.ChatReply: a store read that returns neither data nor an error is treated as an empty FAQ list, which gives the same generic reply.
- Tickets.TicketDesk.RespondToTicket: the code treats an absent text (`undefined`) and an empty one alike (`!responseText` and `responseText || null`), so both are taken as `""`.
- Faq.ChatReply: follows the corrected synonym lookup (only the table's own entries), not the code as written. For a question that does not take the order path, has `constructor` or `__proto__` among its search terms, and meets a non-empty FAQ list, the code answers with the processing apology; `Faq.FaqReplyAsWritten` models that answer (see "## Findings").
- Faq.SearchFaqs: computes the corrected answer of `Faq.ChatReply`, so it does not reproduce the apology for inherited table names described above.
- Chat.ChatSession.SendMessage: stores the corrected engine's answer, so for the questions described above the stored answer is the FAQ reply, not the processing apology the code would store.

## Findings

| source | as written | input that shows it | evidently intended | confidence | as-written member | corrected member |
|---|---|---|---|---|---|---|
| src/hooks/useChat.ts:163-164 | `synonyms[term]` on a plain object literal also finds members inherited from `Object.prototype`; for `constructor` or `__proto__` it is truthy, spreading it into `push` throws, and the handler answers with the processing apology | the question "constructor" (or "__proto__") with a non-empty FAQ list | only the table's own entries are synonyms, so such a question is scored like any other | high, not executed | Faq.FaqReplyAsWritten | Faq.FaqReply |
