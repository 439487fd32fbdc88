/** The chat bot's answer engine (`searchFAQs` in src/hooks/useChat.ts): an order question
    is answered from the orders; any other question is tokenised, its terms are expanded
    through a fixed synonym table, every FAQ is scored, and the first best FAQ's response is
    returned when its score reaches a threshold that grows with the number of terms. The
    FAQ list and the order list are inputs: they stand for the two store reads. */
module Faq {
  import opened Wrappers
  import opened Text
  import Orders

  datatype FaqEntry = FaqEntry(id: string, question: string, response: string)

  const GenericReply := "Thank you for contacting MotoRise support. I'm here to help with any issues you're experiencing with your electric scooter."
  const ProcessingErrorReply := "I'm sorry, I'm having trouble processing your request right now. Please try again or contact our support team directly."

  const StopWords: set<string> := {
    "the", "and", "for", "are", "but", "not", "you", "all", "can", "had", "her", "was",
    "one", "our", "out", "day", "get", "has", "him", "his", "how", "its", "may", "new",
    "now", "old", "see", "two", "who", "boy", "did", "way", "she", "use", "your", "what",
    "when", "where", "will", "with"
  }

  /** The synonym table, kept as the code has it: asymmetric ("delayed" lists "late", but
      "late" has no entry). */
  const SynonymTable: map<string, seq<string>> := map[
    "interval" := ["schedule", "frequency", "maintenance", "routine"],
    "schedule" := ["interval", "timing", "frequency", "maintenance"],
    "maintenance" := ["service", "schedule", "interval", "routine"],
    "service" := ["maintenance", "repair", "schedule"],
    "delayed" := ["late", "postponed", "rescheduled"],
    "appointment" := ["booking", "reservation", "slot"]
  ]

  // ---------------------------------------------------------------- tokenisation

  predicate IsSearchTerm(t: string) {
    |t| > 2 && t !in StopWords
  }

  /** The two `filter` calls: keeps the tokens longer than two characters that are not stop
      words, in order and with their repetitions. */
  function KeepSearchTerms(tokens: seq<string>): (terms: seq<string>)
    ensures forall t :: multiset(terms)[t] == if IsSearchTerm(t) then multiset(tokens)[t] else 0
    ensures forall t :: t in terms <==> t in tokens && IsSearchTerm(t)
  {
    if tokens == [] then []
    else
      assert tokens == [tokens[0]] + tokens[1..];
      (if IsSearchTerm(tokens[0]) then [tokens[0]] else []) + KeepSearchTerms(tokens[1..])
  }

  /** The filters look at one token at a time, so the kept terms stay in token order. */
  lemma {:induction false} KeepSearchTermsAppend(a: seq<string>, b: seq<string>)
    ensures KeepSearchTerms(a + b) == KeepSearchTerms(a) + KeepSearchTerms(b)
  {
    if a == [] {
      assert a + b == b;
    } else {
      var x, rest := a[0], a[1..];
      assert a == [x] + rest;
      assert a + b == [x] + (rest + b);
      var head := if IsSearchTerm(x) then [x] else [];
      KeepSearchTermsCons(x, rest);
      KeepSearchTermsCons(x, rest + b);
      KeepSearchTermsAppend(rest, b);
      ConcatAssoc(head, KeepSearchTerms(rest), KeepSearchTerms(b));
    }
  }

  lemma KeepSearchTermsCons(x: string, rest: seq<string>)
    ensures KeepSearchTerms([x] + rest) == (if IsSearchTerm(x) then [x] else []) + KeepSearchTerms(rest)
  {
    assert ([x] + rest)[0] == x && ([x] + rest)[1..] == rest;
  }

  /** `searchTerms`: the lower-cased question without punctuation, split on single spaces,
      filtered. */
  function SearchTerms(question: string): (terms: seq<string>)
    ensures forall t :: t in terms <==> t in Split(Normalize(question), ' ') && IsSearchTerm(t)
    ensures forall t :: t in terms ==> ' ' !in t
  {
    KeepSearchTerms(Split(Normalize(question), ' '))
  }

  // ---------------------------------------------------------------- synonyms

  /** `synonyms[term]`, looking only at the table's own entries. */
  function SynonymsOf(term: string): (syns: seq<string>)
    ensures syns != [] ==> term in SynonymTable && syns == SynonymTable[term]
    ensures term in SynonymTable ==> syns == SynonymTable[term] && syns != []
    ensures term !in SynonymTable ==> syns == []
  {
    if term in SynonymTable then SynonymTable[term] else []
  }

  /** The synonyms pushed onto `expandedSearchTerms`, term by term. */
  function SynonymExpansion(terms: seq<string>): seq<string> {
    if terms == [] then [] else SynonymExpansion(terms[..|terms| - 1]) + SynonymsOf(terms[|terms| - 1])
  }

  /** `expandedSearchTerms`: a copy of the terms comes first, the synonyms after it. */
  function ExpandedTerms(terms: seq<string>): (expanded: seq<string>)
    ensures |expanded| >= |terms| && expanded[..|terms|] == terms
  {
    terms + SynonymExpansion(terms)
  }

  /** A synonym is pushed exactly when it is listed under one of the terms. */
  lemma {:induction false} SynonymExpansionMembers(terms: seq<string>, s: string)
    ensures s in SynonymExpansion(terms) <==> exists i :: 0 <= i < |terms| && s in SynonymsOf(terms[i])
  {
    if terms != [] {
      var init := terms[..|terms| - 1];
      var syns := SynonymsOf(terms[|terms| - 1]);
      assert SynonymExpansion(terms) == SynonymExpansion(init) + syns;
      SynonymExpansionMembers(init, s);
      ListedUnderSnoc(SynonymsOf, init, terms, s);
    }
  }

  /** Being listed by `f` under one of `init + [last]` is being listed under one of `init`
      or under `last`. */
  lemma ListedUnderSnoc(f: string -> seq<string>, init: seq<string>, terms: seq<string>, s: string)
    requires terms != [] && init == terms[..|terms| - 1]
    ensures (exists i :: 0 <= i < |terms| && s in f(terms[i]))
        <==> (exists i :: 0 <= i < |init| && s in f(init[i])) || s in f(terms[|terms| - 1])
  {
    if exists i :: 0 <= i < |init| && s in f(init[i]) {
      var i :| 0 <= i < |init| && s in f(init[i]);
      assert terms[i] == init[i];
    }
    if exists i :: 0 <= i < |terms| && s in f(terms[i]) {
      var i :| 0 <= i < |terms| && s in f(terms[i]);
      if i < |init| {
        assert init[i] == terms[i];
      }
    }
  }

  // ---------------------------------------------------------------- scoring

  /** What one original term earns against an FAQ: the first of exact token in the
      question (15), substring of the question (8), exact token in the response (3),
      substring of the response (1). */
  function TermPoints(term: string, fq: string, fr: string): (points: nat)
    ensures points in {0, 1, 3, 8, 15}
  {
    if term in Split(fq, ' ') then 15
    else if Contains(fq, term) then 8
    else if term in Split(fr, ' ') then 3
    else if Contains(fr, term) then 1
    else 0
  }

  function OriginalScore(terms: seq<string>, fq: string, fr: string): (score: nat)
    ensures score <= 15 * |terms|
  {
    if terms == [] then 0
    else OriginalScore(terms[..|terms| - 1], fq, fr) + TermPoints(terms[|terms| - 1], fq, fr)
  }

  /** What one expanded term that is not an original term earns: exact token in the
      question (5), else substring of the question (2); never anything from the response. */
  function SynonymPoints(term: string, fq: string): (points: nat)
    ensures points in {0, 2, 5}
    ensures points > 0 <==> Contains(fq, term)
  {
    if term in Split(fq, ' ') then
      TokenContained(fq, ' ', term);
      5
    else if Contains(fq, term) then 2
    else 0
  }

  function SynonymScore(terms: seq<string>, expanded: seq<string>, fq: string): (score: nat)
    ensures score <= 5 * |expanded|
  {
    if expanded == [] then 0
    else
      var e := expanded[|expanded| - 1];
      SynonymScore(terms, expanded[..|expanded| - 1], fq) + (if e in terms then 0 else SynonymPoints(e, fq))
  }

  predicate Matches(term: string, fq: string, fr: string) {
    Contains(fq, term) || Contains(fr, term)
  }

  /** `matchingTerms`: how many original terms occur in the question or the response. */
  function MatchCount(terms: seq<string>, fq: string, fr: string): (m: nat)
    ensures m <= |terms|
  {
    if terms == [] then 0
    else MatchCount(terms[..|terms| - 1], fq, fr) + (if Matches(terms[|terms| - 1], fq, fr) then 1 else 0)
  }

  /** The two bonuses: 3 per matching term when more than one matches, and, when at least
      half of the terms match, the tenths of the matching ratio (`2m >= n` is
      `m / n >= 0.5`, and `(10m) / n` is `Math.floor(m / n * 10)`). */
  function CoverageBonus(m: nat, n: nat): (bonus: nat)
    requires n > 0
    ensures m <= n ==> bonus <= 3 * n + 10
    ensures m > 1 ==> bonus >= 3 * m
    ensures 2 * m >= n ==> bonus >= 5
    ensures m <= 1 && 2 * m < n ==> bonus == 0
  {
    RatioTenths(m, n);
    (if m > 1 then m * 3 else 0) + (if 2 * m >= n then (10 * m) / n else 0)
  }

  /** The tenths of a ratio of at least one half are at least five, and those of a ratio
      of at most one are at most ten. */
  lemma RatioTenths(m: nat, n: nat)
    requires n > 0
    ensures 2 * m >= n ==> (10 * m) / n >= 5
    ensures m <= n ==> (10 * m) / n <= 10
  {
    var q := (10 * m) / n;
    var rem := (10 * m) % n;
    assert 10 * m == n * q + rem && 0 <= rem < n;
  }

  /** The service-interval rule's trigger, on the raw lower-cased question. */
  predicate ScheduleQuestion(ql: string) {
    (Contains(ql, "service") && (Contains(ql, "interval") || Contains(ql, "schedule")))
    || (Contains(ql, "maintenance") && Contains(ql, "schedule"))
  }

  /** The delay rule's trigger, on the raw lower-cased question (so `late` also fires on
      `translate`). */
  predicate DelayQuestion(ql: string) {
    Contains(ql, "delayed") || Contains(ql, "late") || Contains(ql, "postponed")
  }

  predicate MentionsDelayed(fq: string, fr: string) {
    Contains(fq, "delayed") || Contains(fr, "delayed")
  }

  /** The three domain rules: a schedule question gains 20 on a maintenance-schedule FAQ
      and loses 15 on one mentioning `delayed`; a delay question gains 20 on the latter. */
  function DomainAdjustment(ql: string, fq: string, fr: string): (adj: int)
    ensures -15 <= adj <= 40
    ensures !ScheduleQuestion(ql) && !DelayQuestion(ql) ==> adj == 0
    ensures !MentionsDelayed(fq, fr) ==> adj >= 0
    ensures !ScheduleQuestion(ql) ==> adj >= 0
  {
    (if ScheduleQuestion(ql) then
       (if Contains(fq, "maintenance") && Contains(fq, "schedule") then 20 else 0)
       - (if MentionsDelayed(fq, fr) then 15 else 0)
     else 0)
    + (if DelayQuestion(ql) && MentionsDelayed(fq, fr) then 20 else 0)
  }

  /** The score of one FAQ for a question with the given (non-empty) search terms. */
  function FaqScore(question: string, terms: seq<string>, faq: FaqEntry): (score: int)
    requires |terms| > 0
    ensures score >= OriginalScore(terms, Normalize(faq.question), Normalize(faq.response)) - 15
    ensures !ScheduleQuestion(Lower(question)) ==>
      score >= OriginalScore(terms, Normalize(faq.question), Normalize(faq.response))
  {
    var fq := Normalize(faq.question);
    var fr := Normalize(faq.response);
    OriginalScore(terms, fq, fr) + SynonymScore(terms, ExpandedTerms(terms), fq)
    + CoverageBonus(MatchCount(terms, fq, fr), |terms|) + DomainAdjustment(Lower(question), fq, fr)
  }

  function Scores(question: string, terms: seq<string>, faqs: seq<FaqEntry>): (scores: seq<int>)
    requires |terms| > 0
    ensures |scores| == |faqs|
    ensures forall i :: 0 <= i < |faqs| ==> scores[i] == FaqScore(question, terms, faqs[i])
  {
    if faqs == [] then []
    else Scores(question, terms, faqs[..|faqs| - 1]) + [FaqScore(question, terms, faqs[|faqs| - 1])]
  }

  // ---------------------------------------------------------------- selection

  /** `bestMatch` (as an index) and `bestScore` after the FAQ loop. */
  datatype Choice = Choice(best: Option<nat>, bestScore: int)

  /** The loop's choice: starting from no match and 0, a score replaces the best only when
      strictly greater. So the choice is the first FAQ of maximal score, and nothing when
      no score is positive. */
  function Pick(scores: seq<int>): (c: Choice)
    ensures c.bestScore >= 0
    ensures forall i :: 0 <= i < |scores| ==> scores[i] <= c.bestScore
    ensures c.best.None? ==> c.bestScore == 0
    ensures c.best.Some? ==> c.best.value < |scores| && scores[c.best.value] == c.bestScore > 0
    ensures c.best.Some? ==> forall i :: 0 <= i < c.best.value ==> scores[i] < c.bestScore
  {
    if scores == [] then Choice(None, 0)
    else
      var c := Pick(scores[..|scores| - 1]);
      var s := scores[|scores| - 1];
      if s > c.bestScore then Choice(Some(|scores| - 1), s) else c
  }

  /** `Math.max(12, searchTerms.length * 4)`. */
  function Threshold(n: nat): (t: int)
    ensures t >= 12 && t >= 4 * n
    ensures t == 12 || t == 4 * n
  {
    if n * 4 > 12 then n * 4 else 12
  }

  /** The FAQ whose response is returned: the first FAQ of the highest score, provided
      that score reaches the threshold; none when the question has no search terms. */
  function Selected(question: string, faqs: seq<FaqEntry>): (r: Option<nat>)
    ensures SearchTerms(question) == [] ==> r.None?
    ensures r.Some? ==>
      var terms := SearchTerms(question);
      && terms != [] && r.value < |faqs|
      && FaqScore(question, terms, faqs[r.value]) >= Threshold(|terms|)
      && (forall j :: 0 <= j < |faqs| ==> FaqScore(question, terms, faqs[j]) <= FaqScore(question, terms, faqs[r.value]))
      && (forall j :: 0 <= j < r.value ==> FaqScore(question, terms, faqs[j]) < FaqScore(question, terms, faqs[r.value]))
    ensures r.None? && SearchTerms(question) != [] ==>
      var terms := SearchTerms(question);
      forall j :: 0 <= j < |faqs| ==> FaqScore(question, terms, faqs[j]) < Threshold(|terms|)
  {
    var terms := SearchTerms(question);
    if terms == [] then None
    else
      var c := Pick(Scores(question, terms, faqs));
      if c.best.Some? && c.bestScore >= Threshold(|terms|) then c.best else None
  }

  /** The FAQ part of the answer, once the FAQ list has been read. */
  function FaqReply(question: string, faqs: seq<FaqEntry>): (r: string)
    ensures SearchTerms(question) == [] ==> r == GenericReply
    ensures r == GenericReply || exists i :: 0 <= i < |faqs| && r == faqs[i].response
    ensures Selected(question, faqs).Some? ==> r == faqs[Selected(question, faqs).value].response
    ensures Selected(question, faqs).None? ==> r == GenericReply
  {
    match Selected(question, faqs)
    case Some(i) => faqs[i].response
    case None => GenericReply
  }

  /** The whole answer: the order reply when there is one, else the processing apology
      when the FAQ read failed, else the FAQ reply. */
  function ChatReply(question: string, phone: Option<string>, orders: Lookup<Orders.Order>,
                     faqStore: Lookup<FaqEntry>, formatDate: string -> string): (r: string)
    ensures Orders.CheckOrderStatus(question, phone, orders, formatDate).Some? ==>
      r == Orders.CheckOrderStatus(question, phone, orders, formatDate).value
    ensures Orders.CheckOrderStatus(question, phone, orders, formatDate).None? && faqStore.Failed? ==>
      r == ProcessingErrorReply
    ensures Orders.CheckOrderStatus(question, phone, orders, formatDate).None? && faqStore.Found? ==>
      r == GenericReply || exists i :: 0 <= i < |faqStore.rows| && r == faqStore.rows[i].response
    ensures Orders.CheckOrderStatus(question, phone, orders, formatDate).None? && faqStore.Found? ==>
      r == FaqReply(question, faqStore.rows)
  {
    match Orders.CheckOrderStatus(question, phone, orders, formatDate)
    case Some(reply) => reply
    case None =>
      match faqStore
      case Failed => ProcessingErrorReply
      case Found(faqs) => FaqReply(question, faqs)
  }

  // ---------------------------------------------------------------- the engine, step by step

  lemma ExpansionStep(terms: seq<string>, i: nat, expanded: seq<string>)
    requires i < |terms| && expanded == terms + SynonymExpansion(terms[..i])
    ensures expanded + SynonymsOf(terms[i]) == terms + SynonymExpansion(terms[..i + 1])
    ensures SynonymsOf(terms[i]) == [] ==> expanded == terms + SynonymExpansion(terms[..i + 1])
  {
    assert terms[..i + 1][..i] == terms[..i];
    var syns := SynonymsOf(terms[i]);
    assert SynonymExpansion(terms[..i + 1]) == SynonymExpansion(terms[..i]) + syns;
    assert terms + (SynonymExpansion(terms[..i]) + syns) == terms + SynonymExpansion(terms[..i]) + syns;
    assert expanded + [] == expanded;
  }

  /** Builds `expandedSearchTerms`: a copy of the terms, then each term's synonyms pushed
      in term order. */
  method ExpandSearchTerms(terms: seq<string>) returns (expanded: seq<string>)
    ensures expanded == ExpandedTerms(terms)
  {
    expanded := terms;
    var i := 0;
    while i < |terms|
      invariant 0 <= i <= |terms|
      invariant expanded == terms + SynonymExpansion(terms[..i])
    {
      ExpansionStep(terms, i, expanded);
      var syns := SynonymsOf(terms[i]);
      if syns != [] {
        expanded := expanded + syns;
      }
      i := i + 1;
    }
    assert terms[..|terms|] == terms;
  }

  /** The `searchTerms.forEach` pass: each term adds the points of its first tier. */
  method AddTierPoints(terms: seq<string>, fq: string, fr: string) returns (score: int)
    ensures score == OriginalScore(terms, fq, fr)
  {
    score := 0;
    var i := 0;
    while i < |terms|
      invariant 0 <= i <= |terms|
      invariant score == OriginalScore(terms[..i], fq, fr)
    {
      var term := terms[i];
      if term in Split(fq, ' ') {
        score := score + 15;
      } else if Contains(fq, term) {
        score := score + 8;
      } else if term in Split(fr, ' ') {
        score := score + 3;
      } else if Contains(fr, term) {
        score := score + 1;
      }
      assert terms[..i + 1][..i] == terms[..i];
      i := i + 1;
    }
    assert terms[..|terms|] == terms;
  }

  /** The `expandedSearchTerms.forEach` pass: every expanded term that is not an original
      term adds its points against the question. */
  method AddSynonymPoints(terms: seq<string>, expanded: seq<string>, fq: string, score0: int) returns (score: int)
    ensures score == score0 + SynonymScore(terms, expanded, fq)
  {
    score := score0;
    var j := 0;
    while j < |expanded|
      invariant 0 <= j <= |expanded|
      invariant score == score0 + SynonymScore(terms, expanded[..j], fq)
    {
      var term := expanded[j];
      if term !in terms {
        if term in Split(fq, ' ') {
          score := score + 5;
        } else if Contains(fq, term) {
          score := score + 2;
        }
      }
      assert expanded[..j + 1][..j] == expanded[..j];
      j := j + 1;
    }
    assert expanded[..|expanded|] == expanded;
  }

  /** Scores one FAQ as the body of `data.forEach` does: the expanded terms, the tier
      points, the synonym points, the bonuses, then the domain rules. */
  method ScoreFaq(question: string, terms: seq<string>, faq: FaqEntry) returns (score: int)
    requires |terms| > 0
    ensures score == FaqScore(question, terms, faq)
  {
    var fq := Normalize(faq.question);
    var fr := Normalize(faq.response);
    var expanded := ExpandSearchTerms(terms);
    score := AddTierPoints(terms, fq, fr);
    score := AddSynonymPoints(terms, expanded, fq, score);

    var matchingTerms := MatchCount(terms, fq, fr);
    if matchingTerms > 1 {
      score := score + matchingTerms * 3;
    }
    if 2 * matchingTerms >= |terms| {
      score := score + (10 * matchingTerms) / |terms|;
    }
    assert score == OriginalScore(terms, fq, fr) + SynonymScore(terms, expanded, fq)
                    + CoverageBonus(matchingTerms, |terms|);

    var questionLower := Lower(question);
    var adjustment := 0;
    if ScheduleQuestion(questionLower) {
      if Contains(fq, "maintenance") && Contains(fq, "schedule") {
        adjustment := adjustment + 20;
      }
      if Contains(fq, "delayed") || Contains(fr, "delayed") {
        adjustment := adjustment - 15;
      }
    }
    if DelayQuestion(questionLower) {
      if Contains(fq, "delayed") || Contains(fr, "delayed") {
        adjustment := adjustment + 20;
      }
    }
    assert adjustment == DomainAdjustment(questionLower, fq, fr);
    score := score + adjustment;
  }

  lemma ScoresStep(question: string, terms: seq<string>, faqs: seq<FaqEntry>, k: nat)
    requires |terms| > 0 && k < |faqs|
    ensures Scores(question, terms, faqs[..k + 1]) == Scores(question, terms, faqs[..k]) + [FaqScore(question, terms, faqs[k])]
  {
    assert faqs[..k + 1][..k] == faqs[..k];
  }

  lemma PickStep(scores: seq<int>, s: int)
    ensures Pick(scores + [s]) == if s > Pick(scores).bestScore then Choice(Some(|scores|), s) else Pick(scores)
  {
    assert (scores + [s])[..|scores|] == scores;
  }

  /** The FAQ loop: keeps the first FAQ whose score is strictly above the best so far. */
  method SelectBest(question: string, terms: seq<string>, faqs: seq<FaqEntry>) returns (c: Choice)
    requires |terms| > 0
    ensures c == Pick(Scores(question, terms, faqs))
  {
    var bestMatch: Option<nat> := None;
    var bestScore := 0;
    var k := 0;
    while k < |faqs|
      invariant 0 <= k <= |faqs|
      invariant Choice(bestMatch, bestScore) == Pick(Scores(question, terms, faqs[..k]))
    {
      var score := ScoreFaq(question, terms, faqs[k]);
      ScoresStep(question, terms, faqs, k);
      PickStep(Scores(question, terms, faqs[..k]), score);
      if score > bestScore {
        bestScore := score;
        bestMatch := Some(k);
      }
      k := k + 1;
    }
    assert faqs[..|faqs|] == faqs;
    c := Choice(bestMatch, bestScore);
  }

  /** `searchFAQs(question)`, with the synonym lookup restricted to the table's own
      entries (see `FaqReplyAsWritten` for the code as written). */
  method SearchFaqs(question: string, phone: Option<string>, orders: Lookup<Orders.Order>,
                    faqStore: Lookup<FaqEntry>, formatDate: string -> string) returns (reply: string)
    ensures reply == ChatReply(question, phone, orders, faqStore, formatDate)
  {
    var orderResponse := Orders.CheckOrderStatus(question, phone, orders, formatDate);
    if orderResponse.Some? {
      return orderResponse.value;
    }
    if faqStore.Failed? {
      return ProcessingErrorReply;
    }
    reply := MatchFaqs(question, faqStore.rows);
  }

  /** The part of `searchFAQs` after the FAQ read: the terms, the FAQ loop and the
      threshold test. */
  method MatchFaqs(question: string, faqs: seq<FaqEntry>) returns (reply: string)
    ensures reply == FaqReply(question, faqs)
  {
    var terms := SearchTerms(question);
    if |terms| == 0 {
      return GenericReply;
    }
    var c := SelectBest(question, terms, faqs);
    var minimumThreshold := Threshold(|terms|);
    assert Selected(question, faqs) == if c.best.Some? && c.bestScore >= minimumThreshold then c.best else None;
    if c.best.Some? && c.bestScore >= minimumThreshold {
      return faqs[c.best.value].response;
    }
    return GenericReply;
  }

  // ---------------------------------------------------------------- properties

  /** A term earns points exactly when it occurs in the FAQ's question or response (an
      exact word is also a substring), and never more than the top tier. */
  lemma TermPointsPositiveIffMatches(term: string, fq: string, fr: string)
    ensures TermPoints(term, fq, fr) > 0 <==> Matches(term, fq, fr)
    ensures TermPoints(term, fq, fr) <= 15
  {
    if term in Split(fq, ' ') {
      TokenContained(fq, ' ', term);
    }
    if term in Split(fr, ' ') {
      TokenContained(fr, ' ', term);
    }
  }

  /** The tier points lie between one and fifteen points per matching term. */
  lemma {:induction false} OriginalScoreBounds(terms: seq<string>, fq: string, fr: string)
    ensures MatchCount(terms, fq, fr) <= OriginalScore(terms, fq, fr) <= 15 * MatchCount(terms, fq, fr)
  {
    if terms != [] {
      OriginalScoreBounds(terms[..|terms| - 1], fq, fr);
      TermPointsPositiveIffMatches(terms[|terms| - 1], fq, fr);
    }
  }

  /** Terms are scored once per occurrence: the points of a concatenation add up. */
  lemma {:induction false} OriginalScoreAppend(a: seq<string>, b: seq<string>, fq: string, fr: string)
    ensures OriginalScore(a + b, fq, fr) == OriginalScore(a, fq, fr) + OriginalScore(b, fq, fr)
  {
    if b == [] {
      assert a + b == a;
    } else {
      assert (a + b)[..|a + b| - 1] == a + b[..|b| - 1];
      OriginalScoreAppend(a, b[..|b| - 1], fq, fr);
    }
  }

  /** When every term is a word of the FAQ's question, each one earns the top tier. */
  lemma {:induction false} AllWordsTopTier(terms: seq<string>, fq: string, fr: string)
    requires forall t :: t in terms ==> t in Split(fq, ' ')
    ensures OriginalScore(terms, fq, fr) == 15 * |terms|
  {
    if terms != [] {
      AllWordsTopTier(terms[..|terms| - 1], fq, fr);
    }
  }

  /** An FAQ whose question contains every search term as a word, and which does not
      mention `delayed`, always reaches the threshold. */
  lemma ExactQuestionMatchClearsThreshold(question: string, terms: seq<string>, faq: FaqEntry)
    requires |terms| > 0
    requires forall t :: t in terms ==> t in Split(Normalize(faq.question), ' ')
    requires !MentionsDelayed(Normalize(faq.question), Normalize(faq.response))
    ensures FaqScore(question, terms, faq) >= Threshold(|terms|)
  {
    AllWordsTopTier(terms, Normalize(faq.question), Normalize(faq.response));
  }

  /** Expanded terms that are original terms earn no synonym points. */
  lemma {:induction false} OriginalsEarnNoSynonymPoints(terms: seq<string>, xs: seq<string>, fq: string)
    requires forall x :: x in xs ==> x in terms
    ensures SynonymScore(terms, xs, fq) == 0
  {
    if xs != [] {
      OriginalsEarnNoSynonymPoints(terms, xs[..|xs| - 1], fq);
    }
  }

  lemma {:induction false} NoTableTermNoExpansion(terms: seq<string>)
    requires forall t :: t in terms ==> t !in SynonymTable
    ensures SynonymExpansion(terms) == []
  {
    if terms != [] {
      NoTableTermNoExpansion(terms[..|terms| - 1]);
    }
  }

  /** A question none of whose terms is in the synonym table gets no synonym points. */
  lemma NoTableTermNoSynonymPoints(terms: seq<string>, fq: string)
    requires forall t :: t in terms ==> t !in SynonymTable
    ensures ExpandedTerms(terms) == terms
    ensures SynonymScore(terms, ExpandedTerms(terms), fq) == 0
  {
    NoTableTermNoExpansion(terms);
    assert terms + [] == terms;
    OriginalsEarnNoSynonymPoints(terms, terms, fq);
  }

  /** The table is not symmetric: `delayed` lists `late`, but `late` has no entry, so a
      question about lateness is not expanded. */
  lemma SynonymTableAsymmetric()
    ensures "late" in SynonymsOf("delayed") && SynonymsOf("late") == []
  {
    assert SynonymsOf("delayed")[0] == "late";
  }

  /** The delay rule tests substrings of the raw question, so `late` inside `translate`
      fires it. */
  lemma LateInsideTranslate(question: string)
    requires question == "Can you translate the manual"
    ensures DelayQuestion(Lower(question))
  {
    var late := "late";
    assert forall i :: 0 <= i < |late| ==> LowerChar(question[13 + i]) == late[i];
    ContainsLowered(question, late, 13);
  }

  /** A string already lower-case and free of punctuation is its own normal form. */
  lemma NormalizeClean(s: string)
    requires forall i :: 0 <= i < |s| ==> !IsUpper(s[i]) && (IsWordChar(s[i]) || IsSpace(s[i]))
    ensures Normalize(s) == s
  {
    LowerOfLower(s);
    StripPunctClean(s);
  }

  /** The normal form is lower-case and free of punctuation, so normalising twice changes
      nothing more. */
  lemma NormalizeIdempotent(s: string)
    ensures forall i :: 0 <= i < |Normalize(s)| ==> !IsUpper(Normalize(s)[i]) && (IsWordChar(Normalize(s)[i]) || IsSpace(Normalize(s)[i]))
    ensures Normalize(Normalize(s)) == Normalize(s)
  {
    var n := Normalize(s);
    forall i | 0 <= i < |n|
      ensures !IsUpper(n[i]) && (IsWordChar(n[i]) || IsSpace(n[i]))
    {
      assert n[i] in n;
    }
    NormalizeClean(n);
  }

  /** "xyz qq": `xyz` is three characters long and is kept; `qq` is dropped. */
  lemma ShortTokensDropped(q: string)
    requires q == "xyz qq"
    ensures SearchTerms(q) == ["xyz"]
  {
    XyzQqTokens(q);
    var tokens := ["xyz", "qq"];
    assert "xyz" !in StopWords;
    assert IsSearchTerm(tokens[0]) && !IsSearchTerm(tokens[1]);
    assert tokens[1..] == ["qq"] && ["qq"][1..] == [];
    assert KeepSearchTerms(["qq"]) == [];
    assert KeepSearchTerms(tokens) == ["xyz"];
  }

  lemma XyzQqTokens(q: string)
    requires q == "xyz qq"
    ensures Split(Normalize(q), ' ') == ["xyz", "qq"]
  {
    var a, b := "xyz", "qq";
    assert forall i :: 0 <= i < |a| ==> !IsUpper(a[i]) && IsWordChar(a[i]);
    assert forall i :: 0 <= i < |b| ==> !IsUpper(b[i]) && IsWordChar(b[i]);
    assert q == a + [' '] + b;
    TwoWordTokens(a, b);
  }

  /** Two clean lower-case words separated by one space split back into the two words. */
  lemma TwoWordTokens(a: string, b: string)
    requires forall i :: 0 <= i < |a| ==> !IsUpper(a[i]) && IsWordChar(a[i])
    requires forall i :: 0 <= i < |b| ==> !IsUpper(b[i]) && IsWordChar(b[i])
    ensures Split(Normalize(a + [' '] + b), ' ') == [a, b]
  {
    var s := a + [' '] + b;
    forall i | 0 <= i < |s|
      ensures !IsUpper(s[i]) && (IsWordChar(s[i]) || IsSpace(s[i]))
    {
      if i < |a| {
        assert s[i] == a[i];
      } else if i > |a| {
        assert s[i] == b[i - |a| - 1];
      }
    }
    NormalizeClean(s);
    assert forall i :: 0 <= i < |a| ==> a[i] != ' ';
    assert forall i :: 0 <= i < |b| ==> b[i] != ' ';
    SplitCons(a, b, ' ');
    SplitNoSep(b, ' ');
  }

  /** A single clean word that is long enough and not a stop word is its own only term. */
  lemma SingleWordTerms(w: string)
    requires forall i :: 0 <= i < |w| ==> !IsUpper(w[i]) && IsWordChar(w[i])
    requires IsSearchTerm(w)
    ensures SearchTerms(w) == [w]
  {
    NormalizeClean(w);
    assert forall i :: 0 <= i < |w| ==> w[i] != ' ';
    SplitNoSep(w, ' ');
    assert KeepSearchTerms([w]) == [w];
  }

  lemma RepliesDiffer()
    ensures GenericReply != ProcessingErrorReply
  {
    assert |GenericReply| != |ProcessingErrorReply|;
  }

  /** The FAQ reply is never the processing apology unless some FAQ's response is. */
  lemma FaqReplyNeverProcessingError(question: string, faqs: seq<FaqEntry>)
    requires forall i :: 0 <= i < |faqs| ==> faqs[i].response != ProcessingErrorReply
    ensures FaqReply(question, faqs) != ProcessingErrorReply
  {
    RepliesDiffer();
  }

  // ---------------------------------------------------------------- inherited table names

  /** The members every plain object inherits from `Object.prototype` whose names survive
      lower-casing and punctuation removal: `synonyms[term]` finds them although the table
      has no such entry. */
  const InheritedNames: set<string> := {"constructor", "__proto__"}

  /** The FAQ reply as the code computes it: for a search term that names an inherited
      member, `synonyms[term]` is truthy, spreading it into `push` throws, and the handler
      answers with the processing apology. The throw happens in the first FAQ's pass, so
      only when the FAQ list is not empty. */
  function FaqReplyAsWritten(question: string, faqs: seq<FaqEntry>): (r: string)
    ensures r == ProcessingErrorReply || r == FaqReply(question, faqs)
    ensures (faqs == [] || forall t :: t in SearchTerms(question) ==> t !in InheritedNames) ==>
      r == FaqReply(question, faqs)
  {
    var terms := SearchTerms(question);
    if faqs != [] && exists t :: t in terms && t in InheritedNames then ProcessingErrorReply
    else FaqReply(question, faqs)
  }

  /** The question "constructor" has one search term, the word itself, which is an
      inherited name: it is an input that shows the discrepancy. */
  lemma ConstructorIsInheritedTerm(question: string)
    requires question == "constructor"
    ensures SearchTerms(question) == [question] && question in InheritedNames
  {
    assert forall i :: 0 <= i < |question| ==> !IsUpper(question[i]) && IsWordChar(question[i]);
    SingleWordTerms(question);
  }

  /** For a question with an inherited name among its search terms, and FAQs whose
      responses are not the apology, the code as written answers with the processing
      apology while the corrected engine does not. */
  lemma InheritedNameBreaksSearch(question: string, faqs: seq<FaqEntry>)
    requires faqs != []
    requires forall i :: 0 <= i < |faqs| ==> faqs[i].response != ProcessingErrorReply
    requires exists t :: t in SearchTerms(question) && t in InheritedNames
    ensures FaqReplyAsWritten(question, faqs) == ProcessingErrorReply
    ensures FaqReply(question, faqs) != ProcessingErrorReply
  {
    var terms := SearchTerms(question);
    var t :| t in terms && t in InheritedNames;
    assert FaqReplyAsWritten(question, faqs) == ProcessingErrorReply;
    FaqReplyNeverProcessingError(question, faqs);
  }

}
