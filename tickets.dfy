/** The support-ticket workflow of src/hooks/useTickets.ts: the tickets the current user may
    see, the responses loaded per ticket, status updates, and an administrator's response,
    which moves an open ticket to in progress. Every store call is a parameter that says how
    it went; a failed call leaves the local state as it was. */
module Tickets {
  import opened Wrappers
  import opened Auth
  import opened Text

  /** The `ticket_status` enumeration of the database. */
  datatype TicketStatus = Open | InProgress | Resolved

  datatype Ticket = Ticket(id: string, chatId: string, userPhone: string, title: string,
                           status: TicketStatus, createdAt: string, updatedAt: string)

  datatype TicketResponse = TicketResponse(id: string, ticketId: string, adminPhone: string,
                                           responseText: Option<string>, responseFileUrl: Option<string>,
                                           createdAt: string)

  /** The row `respondToTicket` inserts into `ticket_responses`. */
  datatype NewResponse = NewResponse(ticketId: string, adminPhone: string,
                                     responseText: Option<string>, responseFileUrl: Option<string>)

  // ---------------------------------------------------------------- the list updates

  /** `tickets.map(t => t.id === ticketId ? { ...t, status } : t)`. */
  function SetStatus(ts: seq<Ticket>, ticketId: string, status: TicketStatus): (r: seq<Ticket>)
    ensures |r| == |ts|
    ensures forall i :: 0 <= i < |ts| && ts[i].id != ticketId ==> r[i] == ts[i]
    ensures forall i :: 0 <= i < |ts| && ts[i].id == ticketId ==> r[i] == ts[i].(status := status)
  {
    if ts == [] then []
    else
      [if ts[0].id == ticketId then ts[0].(status := status) else ts[0]]
      + SetStatus(ts[1..], ticketId, status)
  }

  /** Of two status updates of the same ticket, the later one wins. */
  lemma SetStatusLastWins(ts: seq<Ticket>, ticketId: string, first: TicketStatus, second: TicketStatus)
    ensures SetStatus(SetStatus(ts, ticketId, first), ticketId, second) == SetStatus(ts, ticketId, second)
  {
    var a := SetStatus(SetStatus(ts, ticketId, first), ticketId, second);
    var b := SetStatus(ts, ticketId, second);
    assert forall i :: 0 <= i < |ts| ==> a[i] == b[i];
  }

  /** Ids are unique in the table, so an update touches exactly one ticket. */
  predicate UniqueIds(ts: seq<Ticket>) {
    forall i, j :: 0 <= i < j < |ts| ==> ts[i].id != ts[j].id
  }

  lemma SetStatusTouchesOne(ts: seq<Ticket>, k: nat, status: TicketStatus)
    requires UniqueIds(ts) && k < |ts|
    ensures var r := SetStatus(ts, ts[k].id, status);
      r[k].status == status && forall i :: 0 <= i < |ts| && i != k ==> r[i] == ts[i]
  {
    var r := SetStatus(ts, ts[k].id, status);
    forall i | 0 <= i < |ts| && i != k
      ensures r[i] == ts[i]
    {
      if i < k {
        assert ts[i].id != ts[k].id;
      } else {
        assert ts[k].id != ts[i].id;
      }
    }
  }

  /** `tickets.find(t => t.id === ticketId)?.status`. */
  function StatusOf(ts: seq<Ticket>, ticketId: string): (r: Option<TicketStatus>)
    ensures r.None? <==> forall i :: 0 <= i < |ts| ==> ts[i].id != ticketId
    ensures r.Some? ==> exists i :: (0 <= i < |ts| && ts[i].id == ticketId && ts[i].status == r.value
      && forall j :: 0 <= j < i ==> ts[j].id != ticketId)
  {
    if ts == [] then None
    else if ts[0].id == ticketId then Some(ts[0].status)
    else
      var r := StatusOf(ts[1..], ticketId);
      if r.Some? then
        var i :| 0 <= i < |ts[1..]| && ts[1..][i].id == ticketId && ts[1..][i].status == r.value
          && forall j :: 0 <= j < i ==> ts[1..][j].id != ticketId;
        assert ts[i + 1].id == ticketId && ts[i + 1].status == r.value;
        r
      else r
  }

  /** The tickets the query returns for `user`: all of them for an administrator, only the
      user's own (same phone) for a customer, in the store's order. */
  function VisibleTickets(rows: seq<Ticket>, user: User): (r: seq<Ticket>)
    ensures user.role == Admin ==> r == rows
    ensures user.role != Admin ==> forall t :: t in r <==> t in rows && t.userPhone == user.phone
    ensures |r| <= |rows|
  {
    if user.role == Admin then rows
    else if rows == [] then []
    else
      assert rows == [rows[0]] + rows[1..];
      (if rows[0].userPhone == user.phone then [rows[0]] else []) + VisibleTickets(rows[1..], user)
  }

  /** The filter looks at one row at a time, so the visible tickets keep the store's
      newest-first order and their repetitions. */
  lemma {:induction false} VisibleTicketsAppend(a: seq<Ticket>, b: seq<Ticket>, user: User)
    ensures VisibleTickets(a + b, user) == VisibleTickets(a, user) + VisibleTickets(b, user)
  {
    if a == [] {
      assert a + b == b;
    } else if user.role != Admin {
      var t, rest := a[0], a[1..];
      assert a == [t] + rest;
      assert a + b == [t] + (rest + b);
      VisibleTicketsCons(t, rest, user);
      VisibleTicketsCons(t, rest + b, user);
      VisibleTicketsAppend(rest, b, user);
      ConcatAssoc(if t.userPhone == user.phone then [t] else [], VisibleTickets(rest, user), VisibleTickets(b, user));
    }
  }

  lemma VisibleTicketsCons(t: Ticket, rest: seq<Ticket>, user: User)
    requires user.role != Admin
    ensures VisibleTickets([t] + rest, user) == (if t.userPhone == user.phone then [t] else []) + VisibleTickets(rest, user)
  {
    assert ([t] + rest)[0] == t && ([t] + rest)[1..] == rest;
  }

  /** One row is visible exactly to an administrator or to the customer with its phone. */
  lemma VisibleTicketsSingle(t: Ticket, user: User)
    ensures VisibleTickets([t], user) == if user.role == Admin || t.userPhone == user.phone then [t] else []
  {
    assert [t][1..] == [];
  }

  /** `responseText || null`: an empty text is stored as null. */
  function StoredText(text: string): (r: Option<string>)
    ensures r.None? <==> text == ""
    ensures r.Some? ==> r.value == text
  {
    if text == "" then None else Some(text)
  }

  // ---------------------------------------------------------------- the hook's state

  class TicketDesk {
    var tickets: seq<Ticket>
    /** `ticketResponses`, keyed by ticket id. */
    var responses: map<string, seq<TicketResponse>>
    var loading: bool

    constructor ()
      ensures tickets == [] && responses == map[] && !loading
    {
      tickets := [];
      responses := map[];
      loading := false;
    }

    /** `loadTickets()`: without a logged-in phone nothing happens; otherwise the visible
        tickets replace the list unless the read fails, and loading ends either way.
        `store` is the answer of the ticket read, newest first. */
    method LoadTickets(user: Option<User>, store: Lookup<Ticket>)
      modifies this`tickets, this`loading
      ensures ActivePhone(user).None? ==> tickets == old(tickets) && loading == old(loading)
      ensures ActivePhone(user).Some? ==> !loading
      ensures ActivePhone(user).Some? && store.Failed? ==> tickets == old(tickets)
      ensures ActivePhone(user).Some? && store.Found? ==> tickets == VisibleTickets(store.rows, user.value)
    {
      if ActivePhone(user).None? {
        return;
      }
      loading := true;
      if store.Found? {
        tickets := VisibleTickets(store.rows, user.value);
      }
      loading := false;
    }

    /** `loadTicketResponses(ticketId)`: replaces the entry of that ticket only, and nothing
        when the read fails. */
    method LoadTicketResponses(ticketId: string, store: Lookup<TicketResponse>)
      modifies this`responses
      ensures store.Failed? ==> responses == old(responses)
      ensures store.Found? ==> responses == old(responses)[ticketId := store.rows]
      ensures store.Found? ==> ticketId in responses && responses[ticketId] == store.rows
      ensures forall k :: k != ticketId ==> (k in responses <==> k in old(responses))
      ensures forall k :: k != ticketId && k in old(responses) ==> responses[k] == old(responses)[k]
    {
      if store.Found? {
        responses := responses[ticketId := store.rows];
      }
    }

    /** `updateTicketStatus(ticketId, status)`: `ok` says whether the store accepted it. */
    method UpdateTicketStatus(ticketId: string, status: TicketStatus, ok: bool)
      modifies this`tickets
      ensures ok ==> tickets == SetStatus(old(tickets), ticketId, status)
      ensures !ok ==> tickets == old(tickets)
    {
      if ok {
        tickets := SetStatus(tickets, ticketId, status);
      }
    }

    /** `respondToTicket(ticketId, responseText, file)`, with an absent text as "". Nothing
        is sent without a logged-in phone or without text and file, nor when the upload or
        the insert fails; then nothing changes. After a sent response an open ticket is
        moved to in progress (if the store accepts) and the ticket's responses are read
        again. The result is the row that was inserted. */
    method RespondToTicket(user: Option<User>, ticketId: string, text: string, hasFile: bool,
                           upload: Option<string>, insertOk: bool, statusOk: bool,
                           reload: Lookup<TicketResponse>)
      returns (sent: Option<NewResponse>)
      modifies this`tickets, this`responses
      ensures sent.Some? <==>
        ActivePhone(user).Some? && !(text == "" && !hasFile) && !(hasFile && upload.None?) && insertOk
      ensures sent.None? ==> tickets == old(tickets) && responses == old(responses)
      ensures sent.Some? ==>
        sent.value == NewResponse(ticketId, ActivePhone(user).value, StoredText(text), if hasFile then upload else None)
      ensures sent.Some? ==>
        tickets == if StatusOf(old(tickets), ticketId) == Some(Open) && statusOk
                   then SetStatus(old(tickets), ticketId, InProgress) else old(tickets)
      ensures sent.Some? && reload.Found? ==> responses == old(responses)[ticketId := reload.rows]
      ensures sent.Some? && reload.Failed? ==> responses == old(responses)
    {
      var phone := ActivePhone(user);
      if phone.None? || (text == "" && !hasFile) {
        return None;
      }
      var fileUrl: Option<string> := None;
      if hasFile {
        fileUrl := upload;
        if fileUrl.None? {
          return None;
        }
      }
      if !insertOk {
        return None;
      }
      var row := NewResponse(ticketId, phone.value, StoredText(text), fileUrl);

      var current := StatusOf(tickets, ticketId);
      if current == Some(Open) {
        UpdateTicketStatus(ticketId, InProgress, statusOk);
      }
      LoadTicketResponses(ticketId, reload);
      return Some(row);
    }
  }

  /** After a response, a ticket that was open is in progress (when the store accepted the
      update) and in-progress and resolved tickets keep their status. */
  lemma ResponseAdvancesOnlyOpen(ts: seq<Ticket>, k: nat)
    requires UniqueIds(ts) && k < |ts|
    ensures var after := if StatusOf(ts, ts[k].id) == Some(Open) then SetStatus(ts, ts[k].id, InProgress) else ts;
      && (ts[k].status == Open ==> after[k].status == InProgress)
      && (ts[k].status != Open ==> after[k] == ts[k])
      && forall i :: 0 <= i < |ts| && i != k ==> after[i] == ts[i]
  {
    var id := ts[k].id;
    var s := StatusOf(ts, id);
    var i :| 0 <= i < |ts| && ts[i].id == id && ts[i].status == s.value && forall j :: 0 <= j < i ==> ts[j].id != id;
    assert i == k;
    SetStatusTouchesOne(ts, k, InProgress);
  }
}
