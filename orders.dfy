/** The order-status path of the chat bot (`checkOrderStatus` in src/hooks/useChat.ts):
    decide from the raw question whether it is about an order, and if so build the reply
    from the caller's orders, which the model receives as the answer of the order store
    (already sorted newest first by the query). */
module Orders {
  import opened Wrappers
  import opened Text

  datatype Order = Order(orderId: string, product: string, status: string, createdAt: string)

  // The fixed replies are written as a short head and the rest, so that proofs can read
  // their first characters.
  const LookupTroubleReply := "I'm " + "having trouble checking your order status right now. Please try again or contact our support team."
  const NoOrdersReply := "I couldn't find any " + "orders associated with your phone number. If you've recently placed an order, it may take a few minutes to appear in our system."

  // ---------------------------------------------------------------- routing keywords

  /** `orderKeywords`, in the code's order. */
  const OrderKeywords: seq<string> := ["order", "delivery", "shipment", "shipped", "tracking", "status"]

  /** `orderKeywords.some(k => lowerQuestion.includes(k))`: some keyword of the list occurs
      as a substring, so `orders` and `reorder` route as well. */
  predicate HasOrderKeyword(lower: string): (r: bool)
    ensures r <==> exists i :: 0 <= i < |OrderKeywords| && Contains(lower, OrderKeywords[i])
  {
    assert OrderKeywords[0] == "order" && OrderKeywords[1] == "delivery" && OrderKeywords[2] == "shipment";
    assert OrderKeywords[3] == "shipped" && OrderKeywords[4] == "tracking" && OrderKeywords[5] == "status";
    Contains(lower, "order") || Contains(lower, "delivery") || Contains(lower, "shipment")
    || Contains(lower, "shipped") || Contains(lower, "tracking") || Contains(lower, "status")
  }

  /** Routing is a substring test: text added around a question that routes to the order
      lookup still routes there. */
  lemma KeywordSurvivesContext(a: string, lower: string, b: string)
    requires HasOrderKeyword(lower)
    ensures HasOrderKeyword(a + lower + b)
  {
    var i :| 0 <= i < |OrderKeywords| && Contains(lower, OrderKeywords[i]);
    ContainsExtend(a, lower, b, OrderKeywords[i]);
  }

  // ---------------------------------------------------------------- the order id pattern

  /** The regular expression `/\bORD\d+[A-Z0-9]*\b/i` matches `s[p..q]`: a word boundary
      before `p`, the letters `ord` in any case, a digit, letters and digits up to `q`,
      and a word boundary at `q`. */
  ghost predicate IsOrdMatch(s: string, p: nat, q: nat) {
    && p + 4 <= q <= |s|
    && (p == 0 || !IsWordChar(s[p - 1]))
    && LowerChar(s[p]) == 'o' && LowerChar(s[p + 1]) == 'r' && LowerChar(s[p + 2]) == 'd'
    && IsDigit(s[p + 3])
    && (forall j :: p + 4 <= j < q ==> IsAlnum(s[j]))
    && (q == |s| || !IsWordChar(s[q]))
  }

  ghost predicate MentionsOrderId(s: string) {
    exists p: nat, q: nat :: IsOrdMatch(s, p, q)
  }

  /** The end of the longest run of letters and digits that starts at `k`. */
  function AlnumRunEnd(s: string, k: nat): (r: nat)
    requires k <= |s|
    ensures k <= r <= |s|
    ensures forall j :: k <= j < r ==> IsAlnum(s[j])
    ensures r == |s| || !IsAlnum(s[r])
    decreases |s| - k
  {
    if k < |s| && IsAlnum(s[k]) then AlnumRunEnd(s, k + 1) else k
  }

  /** Where a match that starts at `p` ends. The greedy run cannot stop early, because
      every position inside a run of letters and digits lies between two word characters. */
  function MatchEndAt(s: string, p: nat): (r: Option<nat>)
    ensures forall q: nat :: r == Some(q) <==> IsOrdMatch(s, p, q)
  {
    if p + 4 <= |s| && (p == 0 || !IsWordChar(s[p - 1]))
       && LowerChar(s[p]) == 'o' && LowerChar(s[p + 1]) == 'r' && LowerChar(s[p + 2]) == 'd'
       && IsDigit(s[p + 3])
    then
      var q := AlnumRunEnd(s, p + 4);
      if q == |s| || !IsWordChar(s[q]) then Some(q) else None
    else None
  }

  datatype Span = Span(start: nat, end: nat)

  /** The leftmost match at or after `from`, as the regular expression engine finds it. */
  function FirstOrdMatch(s: string, from: nat): (r: Option<Span>)
    ensures r.Some? ==> from <= r.value.start && IsOrdMatch(s, r.value.start, r.value.end)
    ensures r.Some? ==> forall p: nat, q: nat :: from <= p < r.value.start ==> !IsOrdMatch(s, p, q)
    ensures r.None? ==> forall p: nat, q: nat :: from <= p ==> !IsOrdMatch(s, p, q)
    decreases |s| - from
  {
    if from >= |s| then None
    else
      match MatchEndAt(s, from)
      case Some(q) => Some(Span(from, q))
      case None => FirstOrdMatch(s, from + 1)
  }

  /** `question.match(/\bORD\d+[A-Z0-9]*\b/i)?.[0]`: the matched text, in its original case. */
  function OrderIdIn(question: string): (r: Option<string>)
    ensures r.Some? <==> MentionsOrderId(question)
    ensures r.Some? ==> |r.value| >= 4 && IsDigit(r.value[3])
    ensures r.Some? ==> exists p: nat, q: nat :: (IsOrdMatch(question, p, q) && r.value == question[p..q]
      && forall p': nat, q': nat :: p' < p ==> !IsOrdMatch(question, p', q'))
  {
    match FirstOrdMatch(question, 0)
    case Some(span) =>
      assert IsOrdMatch(question, span.start, span.end);
      Some(question[span.start..span.end])
    case None => None
  }

  // ---------------------------------------------------------------- replies

  /** The sentence for one order; `formatDate` stands for `toLocaleDateString`. It names
      the order's id, product, status and formatted date. */
  function Describe(o: Order, formatDate: string -> string): (r: string)
    ensures StartsWith(r, "Your order ")
    ensures Contains(r, o.orderId) && Contains(r, o.product) && Contains(r, o.status)
    ensures Contains(r, formatDate(o.createdAt))
  {
    var date := formatDate(o.createdAt);
    var r := "Your order " + o.orderId + " for " + o.product + " is currently: " + o.status
             + ". Order placed on " + date + ".";
    FieldsContained("Your order ", o.orderId, " for ", o.product, " is currently: ", o.status,
                    ". Order placed on ", date, ".");
    r
  }

  /** Each field of a sentence built from fixed text and four fields occurs in it, and the
      sentence starts with its fixed head. */
  lemma FieldsContained(h: string, x1: string, a1: string, x2: string, a2: string, x3: string,
                        a3: string, x4: string, a4: string)
    ensures var r := h + x1 + a1 + x2 + a2 + x3 + a3 + x4 + a4;
      && StartsWith(r, h)
      && Contains(r, x1) && Contains(r, x2) && Contains(r, x3) && Contains(r, x4)
  {
    var r := h + x1 + a1 + x2 + a2 + x3 + a3 + x4 + a4;
    var k1 := |h|;
    var k2 := k1 + |x1| + |a1|;
    var k3 := k2 + |x2| + |a2|;
    var k4 := k3 + |x3| + |a3|;
    assert r[k1..k1 + |x1|] == x1;
    assert r[k2..k2 + |x2|] == x2;
    assert r[k3..k3 + |x3|] == x3;
    assert r[k4..k4 + |x4|] == x4;
    ContainsAt(r, x1, k1);
    ContainsAt(r, x2, k2);
    ContainsAt(r, x3, k3);
    ContainsAt(r, x4, k4);
    assert r[..|h|] == h;
  }

  /** `${order.order_id} - ${order.product} (${order.status})`. */
  function OrderLine(o: Order): (line: string)
    ensures StartsWith(line, o.orderId)
    ensures Contains(line, o.product) && Contains(line, o.status)
    ensures |line| == |o.orderId| + |o.product| + |o.status| + 6
  {
    var text := o.orderId + " - " + o.product + " (" + o.status + ")";
    assert text[..|o.orderId|] == o.orderId;
    ContainsIn(o.orderId + " - ", o.product, " (" + o.status + ")");
    assert o.orderId + " - " + o.product + " (" + o.status + ")" == (o.orderId + " - ") + o.product + (" (" + o.status + ")");
    ContainsIn(o.orderId + " - " + o.product + " (", o.status, ")");
    text
  }

  function OrderLines(orders: seq<Order>): (lines: seq<string>)
    ensures |lines| == |orders|
    ensures forall i :: 0 <= i < |orders| ==> lines[i] == OrderLine(orders[i])
  {
    if orders == [] then [] else [OrderLine(orders[0])] + OrderLines(orders[1..])
  }

  /** The list of all orders, one `id - product (status)` line each, joined by newlines:
      a single order is its own line, and every order's line occurs in the list. */
  function OrdersList(orders: seq<Order>): (r: string)
    ensures |orders| == 1 ==> r == OrderLine(orders[0])
    ensures forall i :: 0 <= i < |orders| ==> Contains(r, OrderLine(orders[i]))
  {
    var lines := OrderLines(orders);
    forall i | 0 <= i < |orders|
      ensures Contains(Join(lines, '\n'), OrderLine(orders[i]))
    {
      JoinContains(lines, '\n', i);
    }
    Join(lines, '\n')
  }

  /** `data.find(o => o.order_id.toLowerCase() === id.toLowerCase())`, as an index. */
  function FindOrder(orders: seq<Order>, id: string): (r: Option<nat>)
    ensures r.Some? ==> r.value < |orders| && Lower(orders[r.value].orderId) == Lower(id)
    ensures r.Some? ==> forall j :: 0 <= j < r.value ==> Lower(orders[j].orderId) != Lower(id)
    ensures r.None? ==> forall j :: 0 <= j < |orders| ==> Lower(orders[j].orderId) != Lower(id)
  {
    if orders == [] then None
    else if Lower(orders[0].orderId) == Lower(id) then Some(0)
    else match FindOrder(orders[1..], id)
      case Some(k) => Some(k + 1)
      case None => None
  }

  /** The reply once the question is known to be about orders: the trouble text exactly
      when the read failed, the no-orders text exactly when it found none, and otherwise a
      reply built from the orders. */
  function OrderReply(id: Option<string>, lookup: Lookup<Order>, formatDate: string -> string): (r: string)
    ensures r == LookupTroubleReply <==> lookup.Failed?
    ensures r == NoOrdersReply <==> lookup.Found? && lookup.rows == []
    ensures |r| > 0
  {
    FixedRepliesDiffer();
    match lookup
    case Failed => LookupTroubleReply
    case Found(orders) =>
      if |orders| == 0 then NoOrdersReply
      else match id
        case Some(text) =>
          (match FindOrder(orders, text)
           case Some(k) => DescribeIsNotFixed(orders[k], formatDate); Describe(orders[k], formatDate)
           case None =>
             NotFoundIsNotFixed(text, OrdersList(orders));
             "I couldn't find order " + text + " associated with your phone number. Here are all your orders:\n\n"
             + OrdersList(orders))
        case None =>
          if |orders| == 1 then DescribeIsNotFixed(orders[0], formatDate); Describe(orders[0], formatDate)
          else ListIsNotFixed(OrdersList(orders)); "Here are all your orders:\n\n" + OrdersList(orders)
  }

  lemma FixedRepliesDiffer()
    ensures LookupTroubleReply != NoOrdersReply
  {
    assert LookupTroubleReply[1] != NoOrdersReply[1];
  }

  lemma DescribeIsNotFixed(o: Order, formatDate: string -> string)
    ensures Describe(o, formatDate) != LookupTroubleReply && Describe(o, formatDate) != NoOrdersReply
  {
    var r := Describe(o, formatDate);
    assert r[..11] == "Your order ";
    assert r[0] == 'Y' && r[1] == 'o';
    assert r[0] != NoOrdersReply[0] && r[1] != LookupTroubleReply[1];
  }

  lemma NotFoundIsNotFixed(text: string, list: string)
    ensures var r := "I couldn't find order " + text + " associated with your phone number. Here are all your orders:\n\n" + list;
      r != LookupTroubleReply && r != NoOrdersReply
  {
    var r := "I couldn't find order " + text + " associated with your phone number. Here are all your orders:\n\n" + list;
    assert r[1] != LookupTroubleReply[1] && r[16] != NoOrdersReply[16];
  }

  lemma ListIsNotFixed(list: string)
    ensures var r := "Here are all your orders:\n\n" + list;
      r != LookupTroubleReply && r != NoOrdersReply
  {
    var r := "Here are all your orders:\n\n" + list;
    assert r[0] != NoOrdersReply[0] && r[0] != LookupTroubleReply[0];
  }

  /** `checkOrderStatus(question)`: no reply (null) without a logged-in phone or when the
      question is not about orders; otherwise a reply, never empty, so that the caller
      stops there. `phone` is `user?.phone` and `lookup` the order store's answer for it. */
  function CheckOrderStatus(question: string, phone: Option<string>, lookup: Lookup<Order>,
                            formatDate: string -> string): (r: Option<string>)
    ensures r.None? <==> phone.None? || !(HasOrderKeyword(Lower(question)) || MentionsOrderId(question))
    ensures r.Some? ==> |r.value| > 0
  {
    if phone.None? then None
    else
      var id := OrderIdIn(question);
      if HasOrderKeyword(Lower(question)) || id.Some? then Some(OrderReply(id, lookup, formatDate))
      else None
  }

  // ---------------------------------------------------------------- properties

  lemma NoNewlineInLine(o: Order)
    requires '\n' !in o.orderId && '\n' !in o.product && '\n' !in o.status
    ensures '\n' !in OrderLine(o)
  {
    assert " - " == [' ', '-', ' '] && " (" == [' ', '('] && ")" == [')'];
  }

  /** The order list can be read back line by line, in lookup order, when no field
      contains a newline. */
  lemma OrdersListLines(orders: seq<Order>)
    requires |orders| >= 1
    requires forall i :: 0 <= i < |orders| ==>
      '\n' !in orders[i].orderId && '\n' !in orders[i].product && '\n' !in orders[i].status
    ensures Split(OrdersList(orders), '\n') == OrderLines(orders)
  {
    var lines := OrderLines(orders);
    forall i | 0 <= i < |lines|
      ensures '\n' !in lines[i]
    {
      NoNewlineInLine(orders[i]);
    }
    SplitJoin(lines, '\n');
  }

  /** With an order id in the question, the first order whose id equals it ignoring case
      is described alone; when none does, the reply names the id as written and lists
      every order. */
  lemma ExplicitIdReply(question: string, phone: string, orders: seq<Order>, formatDate: string -> string)
    requires |orders| > 0 && OrderIdIn(question).Some?
    ensures var id := OrderIdIn(question).value;
      CheckOrderStatus(question, Some(phone), Found(orders), formatDate) ==
        Some(match FindOrder(orders, id)
             case Some(k) => Describe(orders[k], formatDate)
             case None =>
               "I couldn't find order " + id + " associated with your phone number. Here are all your orders:\n\n"
               + OrdersList(orders))
  {
  }

  /** A question about orders without an id: no orders, one order, or the full list. */
  lemma NoIdReply(question: string, phone: string, orders: seq<Order>, formatDate: string -> string)
    requires HasOrderKeyword(Lower(question)) && !MentionsOrderId(question)
    ensures var r := CheckOrderStatus(question, Some(phone), Found(orders), formatDate);
      && (|orders| == 0 ==> r == Some(NoOrdersReply))
      && (|orders| == 1 ==> r == Some(Describe(orders[0], formatDate)))
      && (|orders| >= 2 ==> r == Some("Here are all your orders:\n\n" + OrdersList(orders)))
  {
  }

  /** A failed order lookup always gives the fixed apology, whatever the question. */
  lemma LookupFailureReply(question: string, phone: string, formatDate: string -> string)
    requires HasOrderKeyword(Lower(question)) || MentionsOrderId(question)
    ensures CheckOrderStatus(question, Some(phone), Failed, formatDate) == Some(LookupTroubleReply)
  {
  }

  /** There is no exception for questions about placing an order: they contain `order`
      and go to the order lookup. */
  lemma PlacementQuestionGoesToLookup(question: string, phone: string, lookup: Lookup<Order>,
                                      formatDate: string -> string)
    requires question == "How do I place an order?"
    ensures CheckOrderStatus(question, Some(phone), lookup, formatDate).Some?
  {
    var order := "order";
    assert forall i :: 0 <= i < |order| ==> LowerChar(question[18 + i]) == order[i];
    ContainsLowered(question, order, 18);
  }
}
