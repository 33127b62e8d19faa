/** Sending and reading direct messages: `_send_message` and `_read_message` of
    synapse/service.py over synapse/store/messages.py. Each command is one write transaction:
    an error leaves the mailbox as it was. */
module Messages {
  import opened TextOrder
  import opened Wrappers

  type User = string
  type MessageId = string
  type ConversationId = string

  datatype Message = Message(
    conversation: ConversationId, clientId: string, sender: User, recipient: User, content: string,
    reference: Option<string>, createdAt: string, readAt: Option<string>)

  datatype Mark = Mark(message: MessageId, at: string)

  /** The tables a message command writes. A missing reply mark is no row, a `None` one is a
      cleared row. */
  datatype Mailbox = Mailbox(
    messages: map<MessageId, Message>, conversations: map<string, ConversationId>,
    replyMarks: map<(ConversationId, User), Option<Mark>>)

  const EMPTY := Mailbox(map[], map[], map[])

  datatype Account = Account(organization: string, active: bool)

  datatype Organization = Organization(enabled: bool, allowOutgoing: bool, allowIncoming: bool)

  /** What a send reads besides the mailbox: accounts, policies, hourly budgets (a missing or
      `None` budget is unlimited), the group messages sent in the last hour, the clock, and the
      identifiers drawn for new rows. */
  datatype Env = Env(
    accounts: map<User, Account>, organizations: map<string, Organization>,
    budgets: map<User, Option<nat>>, groupSent: map<User, nat>, now: string, hourAgo: string,
    newMessage: MessageId, newConversation: ConversationId)

  datatype Request = Request(recipient: User, content: string, clientId: string, reference: Option<string>)

  datatype ApiError =
    | AuthFailed | InvalidArgument | MessageAlreadyExists | QuotaExceeded | PolicyDenied
    | RecipientNotFound | MessageNotFound | InternalError

  /** The dispatcher lets active accounts in; the schema ties them to an organization. */
  predicate Authenticated(env: Env, me: User) {
    me in env.accounts && env.accounts[me].organization in env.organizations
  }

  predicate HasClientId(m: Message, me: User, clientId: string) {
    m.sender == me && m.clientId == clientId
  }

  ghost function FindByClientId(box: Mailbox, me: User, clientId: string): (found: Option<MessageId>)
    ensures found.Some? ==> found.value in box.messages && HasClientId(box.messages[found.value], me, clientId)
    ensures found.None? ==> forall id :: id in box.messages ==> !HasClientId(box.messages[id], me, clientId)
  {
    if exists id :: id in box.messages && HasClientId(box.messages[id], me, clientId) then
      var id :| id in box.messages && HasClientId(box.messages[id], me, clientId);
      Some(id)
    else None
  }

  predicate Repeats(m: Message, req: Request) {
    m.recipient == req.recipient && m.content == req.content && m.reference == req.reference
  }

  function SentSince(box: Mailbox, me: User, since: string): nat {
    |set id | id in box.messages && box.messages[id].sender == me && TextBefore(since, box.messages[id].createdAt)|
  }

  predicate WithinBudget(box: Mailbox, env: Env, me: User) {
    me in env.budgets && env.budgets[me].Some? ==>
      SentSince(box, me, env.hourAgo) + (if me in env.groupSent then env.groupSent[me] else 0) < env.budgets[me].value
  }

  predicate Reachable(env: Env, u: User) {
    && u in env.accounts && env.accounts[u].active
    && env.accounts[u].organization in env.organizations && env.organizations[env.accounts[u].organization].enabled
  }

  /** The refusals that depend on the parties only. */
  function PolicyRefusal(env: Env, me: User, recipient: User): Option<ApiError>
    requires Authenticated(env, me)
  {
    var mine := env.accounts[me].organization;
    var outgoingBlocked := !env.organizations[mine].allowOutgoing;
    if !Reachable(env, recipient) then Some(if outgoingBlocked then PolicyDenied else RecipientNotFound)
    else if env.accounts[recipient].organization == mine then None
    else if outgoingBlocked then Some(PolicyDenied)
    else if !env.organizations[env.accounts[recipient].organization].allowIncoming then Some(PolicyDenied)
    else None
  }

  /** `min:max` of the two names. */
  function ConversationKey(a: User, b: User): string {
    if TextBefore(b, a) then b + ":" + a else a + ":" + b
  }

  function Delivered(box: Mailbox, env: Env, me: User, req: Request, conversation: ConversationId): Mailbox {
    Mailbox(
      box.messages[env.newMessage :=
        Message(conversation, req.clientId, me, req.recipient, req.content, req.reference, env.now, None)],
      box.conversations[ConversationKey(me, req.recipient) := conversation],
      box.replyMarks[(conversation, req.recipient) := None][(conversation, me) := None])
  }

  /** A drawn identifier that is taken violates the primary key: for a message that reads as
      a client id in use, for a conversation it surfaces as an internal error. */
  function Insert(box: Mailbox, env: Env, me: User, req: Request): Result<(Mailbox, MessageId), ApiError> {
    var key := ConversationKey(me, req.recipient);
    if key !in box.conversations && env.newConversation in box.conversations.Values then Err(InternalError)
    else if env.newMessage in box.messages then Err(MessageAlreadyExists)
    else
      var conversation := if key in box.conversations then box.conversations[key] else env.newConversation;
      Ok((Delivered(box, env, me, req, conversation), env.newMessage))
  }

  ghost function Send(box: Mailbox, env: Env, me: User, req: Request): Result<(Mailbox, MessageId), ApiError> {
    if !Authenticated(env, me) then Err(AuthFailed)
    else if req.recipient == me then Err(InvalidArgument)
    else
      match FindByClientId(box, me, req.clientId)
      case Some(id) => if Repeats(box.messages[id], req) then Ok((box, id)) else Err(MessageAlreadyExists)
      case None =>
        if !WithinBudget(box, env, me) then Err(QuotaExceeded)
        else
          match PolicyRefusal(env, me, req.recipient)
          case Some(e) => Err(e)
          case None => Insert(box, env, me, req)
  }

  /** Only the recipient's first reading writes. */
  function Read(box: Mailbox, me: User, id: MessageId, now: string): Result<Mailbox, ApiError> {
    if id !in box.messages || (box.messages[id].sender != me && box.messages[id].recipient != me) then Err(MessageNotFound)
    else if box.messages[id].recipient == me && box.messages[id].readAt.None? then
      Ok(box.(messages := box.messages[id := box.messages[id].(readAt := Some(now))]))
    else Ok(box)
  }

  class Messenger {
    var messages: map<MessageId, Message>
    var conversations: map<string, ConversationId>
    var replyMarks: map<(ConversationId, User), Option<Mark>>

    function View(): Mailbox
      reads this
    {
      Mailbox(messages, conversations, replyMarks)
    }

    constructor ()
      ensures View() == EMPTY
    {
      messages, conversations, replyMarks := map[], map[], map[];
    }

    method Find(me: User, clientId: string) returns (found: Option<MessageId>)
      requires UniqueClientIds(View())
      ensures found == FindByClientId(View(), me, clientId)
    {
      var todo := messages.Keys;
      while todo != {}
        invariant todo <= messages.Keys
        invariant forall id :: id in messages && id !in todo ==> !HasClientId(messages[id], me, clientId)
        decreases todo
      {
        var id :| id in todo;
        if HasClientId(messages[id], me, clientId) {
          ClientIdFinds(View(), me, clientId, id);
          return Some(id);
        }
        todo := todo - {id};
      }
      return None;
    }

    method SendMessage(env: Env, me: User, req: Request) returns (r: Result<MessageId, ApiError>)
      requires Inv(View())
      modifies this
      ensures Inv(View())
      ensures match Send(old(View()), env, me, req)
              case Ok((box, id)) => r == Ok(id) && View() == box
              case Err(e) => r == Err(e) && View() == old(View())
    {
      if Send(View(), env, me, req).Ok? {
        SendKeepsInv(View(), env, me, req);
      }
      if !Authenticated(env, me) {
        return Err(AuthFailed);
      }
      if req.recipient == me {
        return Err(InvalidArgument);
      }
      var existing := Find(me, req.clientId);
      if existing.Some? {
        if Repeats(messages[existing.value], req) {
          return Ok(existing.value);
        }
        return Err(MessageAlreadyExists);
      }
      if !WithinBudget(View(), env, me) {
        return Err(QuotaExceeded);
      }
      var refusal := PolicyRefusal(env, me, req.recipient);
      if refusal.Some? {
        return Err(refusal.value);
      }
      r := Deliver(env, me, req);
    }

    /** The conversation, the message and the reply states, or nothing. */
    method Deliver(env: Env, me: User, req: Request) returns (r: Result<MessageId, ApiError>)
      modifies this
      ensures match Insert(old(View()), env, me, req)
              case Ok((box, id)) => r == Ok(id) && View() == box
              case Err(e) => r == Err(e) && View() == old(View())
    {
      var key := ConversationKey(me, req.recipient);
      var conversation := env.newConversation;
      if key in conversations {
        conversation := conversations[key];
      } else if conversation in conversations.Values {
        return Err(InternalError);
      }
      if env.newMessage in messages {
        return Err(MessageAlreadyExists);
      }
      conversations := conversations[key := conversation];
      messages := messages[env.newMessage :=
        Message(conversation, req.clientId, me, req.recipient, req.content, req.reference, env.now, None)];
      replyMarks := replyMarks[(conversation, req.recipient) := None];
      replyMarks := replyMarks[(conversation, me) := None];
      r := Ok(env.newMessage);
    }

    method ReadMessage(me: User, id: MessageId, now: string) returns (r: Result<Message, ApiError>)
      modifies this
      ensures match Read(old(View()), me, id, now)
              case Ok(box) => View() == box && id in messages && r == Ok(messages[id])
              case Err(e) => r == Err(e) && View() == old(View())
    {
      if id !in messages {
        return Err(MessageNotFound);
      }
      var row := messages[id];
      if row.sender != me && row.recipient != me {
        return Err(MessageNotFound);
      }
      if row.recipient == me && row.readAt.None? {
        messages := messages[id := row.(readAt := Some(now))];
      }
      r := Ok(messages[id]);
    }
  }

  // ----- what every step keeps

  ghost predicate UniqueClientIds(box: Mailbox) {
    forall a, b ::
      a in box.messages && b in box.messages && SameClientId(box.messages[a], box.messages[b]) ==> a == b
  }

  predicate SameClientId(m: Message, n: Message) {
    m.sender == n.sender && m.clientId == n.clientId
  }

  /** A message lies in the conversation of its two parties, and conversations have distinct
      identifiers. */
  ghost predicate Wired(box: Mailbox) {
    && (forall id :: id in box.messages ==> InItsConversation(box, box.messages[id]))
    && (forall k, l ::
          k in box.conversations && l in box.conversations && box.conversations[k] == box.conversations[l] ==> k == l)
  }

  predicate InItsConversation(box: Mailbox, m: Message) {
    var key := ConversationKey(m.sender, m.recipient);
    key in box.conversations && box.conversations[key] == m.conversation
  }

  ghost predicate Inv(box: Mailbox) {
    UniqueClientIds(box) && Wired(box)
  }

  /** Messages are only added, and of a message only the reading time changes, once. */
  ghost predicate Evolves(before: Mailbox, after: Mailbox) {
    forall id :: id in before.messages ==> id in after.messages && Matures(before.messages[id], after.messages[id])
  }

  predicate Matures(m: Message, n: Message) {
    n == m || (m.readAt.None? && n == m.(readAt := n.readAt))
  }

  lemma DeliveryKeepsClientIds(box: Mailbox, env: Env, me: User, req: Request)
    requires UniqueClientIds(box) && FindByClientId(box, me, req.clientId).None? && Insert(box, env, me, req).Ok?
    ensures UniqueClientIds(Insert(box, env, me, req).value.0)
  {
    assert forall id :: id in box.messages ==> !HasClientId(box.messages[id], me, req.clientId);
  }

  lemma {:induction false} DeliveryKeepsWiring(box: Mailbox, env: Env, me: User, req: Request)
    requires Wired(box) && Insert(box, env, me, req).Ok?
    ensures Wired(Insert(box, env, me, req).value.0)
  {
    var after := Insert(box, env, me, req).value.0;
    forall id | id in after.messages ensures InItsConversation(after, after.messages[id]) {
      assert id != env.newMessage ==> InItsConversation(box, box.messages[id]);
    }
    assert forall k :: k in box.conversations ==> box.conversations[k] in box.conversations.Values;
  }

  lemma {:induction false} SendKeepsInv(box: Mailbox, env: Env, me: User, req: Request)
    requires Inv(box) && Send(box, env, me, req).Ok?
    ensures Inv(Send(box, env, me, req).value.0) && Evolves(box, Send(box, env, me, req).value.0)
  {
    if FindByClientId(box, me, req.clientId).None? {
      DeliveryKeepsClientIds(box, env, me, req);
      DeliveryKeepsWiring(box, env, me, req);
    }
  }

  lemma {:induction false} ReadKeepsClientIds(box: Mailbox, me: User, id: MessageId, now: string)
    requires UniqueClientIds(box) && Read(box, me, id, now).Ok?
    ensures UniqueClientIds(Read(box, me, id, now).value)
  {
    var after := Read(box, me, id, now).value;
    forall a, b | a in after.messages && b in after.messages && SameClientId(after.messages[a], after.messages[b])
      ensures a == b
    {
      assert SameClientId(box.messages[a], box.messages[b]);
    }
  }

  lemma {:induction false} ReadKeepsInv(box: Mailbox, me: User, id: MessageId, now: string)
    requires Inv(box) && Read(box, me, id, now).Ok?
    ensures Inv(Read(box, me, id, now).value) && Evolves(box, Read(box, me, id, now).value)
  {
    var after := Read(box, me, id, now).value;
    ReadKeepsClientIds(box, me, id, now);
    forall a | a in after.messages ensures InItsConversation(after, after.messages[a]) {
      assert InItsConversation(box, box.messages[a]);
    }
  }

  // ----- runs

  /** `NoReply` sets a reply mark; the message it names is found by a query. */
  datatype Step =
    | Sending(env: Env, me: User, req: Request)
    | Reading(me: User, id: MessageId, now: string)
    | NoReply(conversation: ConversationId, me: User, mark: Mark)

  ghost function Next(box: Mailbox, step: Step): Mailbox {
    match step
    case Sending(env, me, req) => (match Send(box, env, me, req) case Ok((after, _)) => after case Err(_) => box)
    case Reading(me, id, now) => (match Read(box, me, id, now) case Ok(after) => after case Err(_) => box)
    case NoReply(conversation, me, mark) => box.(replyMarks := box.replyMarks[(conversation, me) := Some(mark)])
  }

  ghost function Run(box: Mailbox, steps: seq<Step>): Mailbox
    decreases steps
  {
    if steps == [] then box else Run(Next(box, steps[0]), steps[1..])
  }

  lemma StepKeepsInv(box: Mailbox, step: Step)
    requires Inv(box)
    ensures Inv(Next(box, step)) && Evolves(box, Next(box, step))
  {
    match step
    case Sending(env, me, req) =>
      if Send(box, env, me, req).Ok? {
        SendKeepsInv(box, env, me, req);
      }
    case Reading(me, id, now) =>
      if Read(box, me, id, now).Ok? {
        ReadKeepsInv(box, me, id, now);
      }
    case NoReply(_, _, _) =>
      forall a | a in box.messages ensures InItsConversation(Next(box, step), box.messages[a]) {
        assert InItsConversation(box, box.messages[a]);
      }
  }

  lemma {:induction false} RunKeepsInv(box: Mailbox, steps: seq<Step>)
    requires Inv(box)
    ensures Inv(Run(box, steps)) && Evolves(box, Run(box, steps))
    decreases steps
  {
    if steps != [] {
      StepKeepsInv(box, steps[0]);
      RunKeepsInv(Next(box, steps[0]), steps[1..]);
      var mid, after := Next(box, steps[0]), Run(box, steps);
      forall id | id in box.messages ensures id in after.messages && Matures(box.messages[id], after.messages[id]) {
        assert Matures(box.messages[id], mid.messages[id]) && Matures(mid.messages[id], after.messages[id]);
      }
    }
  }

  /** In every reachable mailbox there is at most one message per sender and client id. */
  lemma AtMostOncePerClientId(steps: seq<Step>)
    ensures UniqueClientIds(Run(EMPTY, steps))
  {
    RunKeepsInv(EMPTY, steps);
  }

  /** Once a send has succeeded, every later send with its client id, after any steps and in
      any environment, returns the same message and changes nothing if it repeats the request,
      and fails otherwise. */
  lemma {:induction false} SendIsExactlyOnce(steps: seq<Step>, env: Env, me: User, req: Request,
                                             later: seq<Step>, env': Env, req': Request)
    requires Send(Run(EMPTY, steps), env, me, req).Ok?
    requires req'.clientId == req.clientId && Authenticated(env', me)
    ensures var (sent, id) := Send(Run(EMPTY, steps), env, me, req).value;
            var box := Run(sent, later);
            Send(box, env', me, req') ==
              if req' == req then Ok((box, id))
              else if req'.recipient == me then Err(InvalidArgument)
              else Err(MessageAlreadyExists)
  {
    var before := Run(EMPTY, steps);
    var (sent, id) := Send(before, env, me, req).value;
    RunKeepsInv(EMPTY, steps);
    SendKeepsInv(before, env, me, req);
    SentIsStored(before, env, me, req);
    RunKeepsInv(sent, later);
    var box := Run(sent, later);
    assert Matures(sent.messages[id], box.messages[id]);
    RetryIsAnswered(box, id, env', me, req, req');
  }

  lemma SentIsStored(box: Mailbox, env: Env, me: User, req: Request)
    requires Send(box, env, me, req).Ok?
    ensures var (sent, id) := Send(box, env, me, req).value;
            id in sent.messages && HasClientId(sent.messages[id], me, req.clientId) && Repeats(sent.messages[id], req)
            && req.recipient != me
  {
  }

  lemma RetryIsAnswered(box: Mailbox, id: MessageId, env: Env, me: User, req: Request, again: Request)
    requires UniqueClientIds(box) && id in box.messages && Authenticated(env, me) && req.recipient != me
    requires HasClientId(box.messages[id], me, req.clientId) && Repeats(box.messages[id], req)
    requires again.clientId == req.clientId
    ensures Send(box, env, me, again) ==
            if again == req then Ok((box, id))
            else if again.recipient == me then Err(InvalidArgument)
            else Err(MessageAlreadyExists)
  {
    ClientIdFinds(box, me, req.clientId, id);
  }

  lemma ClientIdFinds(box: Mailbox, me: User, clientId: string, id: MessageId)
    requires UniqueClientIds(box) && id in box.messages && HasClientId(box.messages[id], me, clientId)
    ensures FindByClientId(box, me, clientId) == Some(id)
  {
    var found := FindByClientId(box, me, clientId);
    assert found.Some? && SameClientId(box.messages[id], box.messages[found.value]);
  }

  /** The first reading by the recipient fixes the reading time for good. */
  lemma {:induction false} FirstReadingWins(steps: seq<Step>, me: User, id: MessageId, now: string, later: seq<Step>)
    requires var box := Run(EMPTY, steps); Read(box, me, id, now).Ok? && box.messages[id].recipient == me
    ensures var box := Run(EMPTY, steps);
            var after := Run(Read(box, me, id, now).value, later);
            && id in after.messages
            && after.messages[id] ==
               box.messages[id].(readAt := if box.messages[id].readAt.Some? then box.messages[id].readAt else Some(now))
  {
    var box := Run(EMPTY, steps);
    RunKeepsInv(EMPTY, steps);
    ReadKeepsInv(box, me, id, now);
    var read := Read(box, me, id, now).value;
    RunKeepsInv(read, later);
    assert Matures(read.messages[id], Run(read, later).messages[id]);
  }

  // ----- conversations

  predicate IsName(u: User) {
    ':' !in u
  }

  function FirstColon(s: string): nat {
    if s == "" || s[0] == ':' then 0 else 1 + FirstColon(s[1..])
  }

  lemma {:induction false} ColonEndsTheName(a: User, b: User)
    requires IsName(a)
    ensures FirstColon(a + ":" + b) == |a|
  {
    if a != "" {
      assert (a + ":" + b)[1..] == a[1..] + ":" + b;
      ColonEndsTheName(a[1..], b);
    }
  }

  lemma SplitsAtColon(a: User, b: User, c: User, d: User)
    requires IsName(a) && IsName(c) && a + ":" + b == c + ":" + d
    ensures a == c && b == d
  {
    ColonEndsTheName(a, b);
    ColonEndsTheName(c, d);
    var s := a + ":" + b;
    assert s[..|a|] == a && s[..|c|] == c;
    assert s[|a| + 1..] == b && s[|c| + 1..] == d;
  }

  /** Names cannot contain a colon, so a key stands for one unordered pair. */
  lemma KeyIsThePair(a: User, b: User, c: User, d: User)
    requires IsName(a) && IsName(b) && IsName(c) && IsName(d)
    ensures ConversationKey(a, b) == ConversationKey(c, d) <==> (a == c && b == d) || (a == d && b == c)
  {
    if ConversationKey(a, b) == ConversationKey(c, d) {
      var (p, q) := if TextBefore(b, a) then (b, a) else (a, b);
      var (r, t) := if TextBefore(d, c) then (d, c) else (c, d);
      SplitsAtColon(p, q, r, t);
    }
    TextBeforeTotal(a, b);
    TextBeforeAsymmetric(a, b);
  }

  lemma TextBeforeAsymmetric(a: string, b: string)
    ensures !(TextBefore(a, b) && TextBefore(b, a))
  {
    if TextBefore(a, b) && TextBefore(b, a) {
      TextBeforeTransitive(a, b, a);
      TextBeforeIrreflexive(a);
    }
  }

  /** In every reachable mailbox two messages share a conversation if and only if they are
      between the same two parties. */
  lemma ConversationIsThePair(steps: seq<Step>, x: MessageId, y: MessageId)
    requires var box := Run(EMPTY, steps);
             && x in box.messages && y in box.messages
             && IsName(box.messages[x].sender) && IsName(box.messages[x].recipient)
             && IsName(box.messages[y].sender) && IsName(box.messages[y].recipient)
    ensures var (m, n) := (Run(EMPTY, steps).messages[x], Run(EMPTY, steps).messages[y]);
            m.conversation == n.conversation <==> {m.sender, m.recipient} == {n.sender, n.recipient}
  {
    var box := Run(EMPTY, steps);
    RunKeepsInv(EMPTY, steps);
    var m, n := box.messages[x], box.messages[y];
    assert InItsConversation(box, m) && InItsConversation(box, n);
    KeyIsThePair(m.sender, m.recipient, n.sender, n.recipient);
    assert {m.sender, m.recipient} == {n.sender, n.recipient} <==>
           (m.sender == n.sender && m.recipient == n.recipient) || (m.sender == n.recipient && m.recipient == n.sender) by {
      SamePair(m.sender, m.recipient, n.sender, n.recipient);
    }
  }

  lemma SamePair(a: User, b: User, c: User, d: User)
    ensures {a, b} == {c, d} <==> (a == c && b == d) || (a == d && b == c)
  {
    if {a, b} == {c, d} {
      assert a in {c, d} && b in {c, d} && c in {a, b} && d in {a, b};
    }
  }

  // ----- policies

  /** What a closed organization's member can learn about another organization: the answer to
      a new message for someone outside does not depend on whether the recipient exists, is
      active, or would accept it. */
  lemma ClosedOrganizationLearnsNothing(box: Mailbox, env: Env, env': Env, me: User, req: Request)
    requires Authenticated(env, me) && !env.organizations[env.accounts[me].organization].allowOutgoing
    requires env' == env.(accounts := env'.accounts, organizations := env'.organizations)
    requires me in env'.accounts && env'.accounts[me] == env.accounts[me]
    requires Outside(env, me, req.recipient) && Outside(env', me, req.recipient)
    requires var mine := env.accounts[me].organization;
             mine in env'.organizations && env'.organizations[mine] == env.organizations[mine]
    ensures Send(box, env, me, req) == Send(box, env', me, req)
  {
  }

  predicate Outside(env: Env, me: User, u: User)
    requires me in env.accounts
  {
    u in env.accounts ==> env.accounts[u].organization != env.accounts[me].organization
  }

  // ----- every message was sent

  /** The sender's messages of the last hour, group messages included, are fewer than the budget. */
  predicate HasQuota(box: Mailbox, env: Env, me: User) {
    me !in env.budgets || env.budgets[me] == None
    || |set id | id in box.messages && box.messages[id].sender == me && TextBefore(env.hourAgo, box.messages[id].createdAt)|
       + (if me in env.groupSent then env.groupSent[me] else 0) < env.budgets[me].value
  }

  /** The recipient has an active account in an enabled organization. */
  predicate CanReceive(env: Env, u: User) {
    && u in env.accounts && env.accounts[u].active
    && var org := env.accounts[u].organization;
       org in env.organizations && env.organizations[org].enabled
  }

  /** Within one organization, or out of one that lets messages out and into one that lets them in. */
  predicate AllowsMessages(env: Env, from: string, to: string) {
    && from in env.organizations
    && (from == to
        || (to in env.organizations && env.organizations[from].allowOutgoing && env.organizations[to].allowIncoming))
  }

  /** A send with a new client id that the budget, the recipient's state, both organizations and
      the drawn identifiers allow. */
  ghost predicate Delivers(box: Mailbox, step: Step) {
    && step.Sending? && step.me in step.env.accounts && step.req.recipient != step.me
    && (forall m :: m in box.messages.Values ==> !(m.sender == step.me && m.clientId == step.req.clientId))
    && HasQuota(box, step.env, step.me) && CanReceive(step.env, step.req.recipient)
    && AllowsMessages(step.env, step.env.accounts[step.me].organization,
                      step.env.accounts[step.req.recipient].organization)
    && step.env.newMessage !in box.messages
    && (ConversationKey(step.me, step.req.recipient) in box.conversations
        || step.env.newConversation !in box.conversations.Values)
  }

  predicate IsRequested(m: Message, step: Step)
    requires step.Sending?
  {
    m == Message(m.conversation, step.req.clientId, step.me, step.req.recipient, step.req.content, step.req.reference,
                 step.env.now, m.readAt)
  }

  lemma NoneIsFound(box: Mailbox, me: User, clientId: string)
    ensures FindByClientId(box, me, clientId).None? <==>
            forall m :: m in box.messages.Values ==> !(m.sender == me && m.clientId == clientId)
  {
    var found := FindByClientId(box, me, clientId);
    if found.Some? {
      assert box.messages[found.value] in box.messages.Values;
    }
  }

  /** A step adds the message it delivers, unread, and none if it delivers none. */
  lemma {:induction false} StepAddsItsDelivery(box: Mailbox, step: Step)
    ensures Next(box, step).messages.Keys == box.messages.Keys + (if Delivers(box, step) then {step.env.newMessage} else {})
    ensures Delivers(box, step) ==>
              && step.env.newMessage !in box.messages
              && IsRequested(Next(box, step).messages[step.env.newMessage], step)
              && Next(box, step).messages[step.env.newMessage].readAt == None
  {
    if step.Sending? && Authenticated(step.env, step.me) {
      NoneIsFound(box, step.me, step.req.clientId);
      if Delivers(box, step) {
        assert Insert(box, step.env, step.me, step.req).Ok?;
      }
    }
  }

  /** A delivery clears the reply marks of its two parties in their conversation, a mark is set
      for the one who sets it, and no other mark is touched. */
  lemma {:induction false} StepMarks(box: Mailbox, step: Step, conversation: ConversationId, u: User)
    ensures var after := Next(box, step);
            var marked := if (conversation, u) in box.replyMarks then Some(box.replyMarks[(conversation, u)]) else None;
            (if (conversation, u) in after.replyMarks then Some(after.replyMarks[(conversation, u)]) else None) ==
            if step.NoReply? && step.conversation == conversation && step.me == u then Some(Some(step.mark))
            else if Delivers(box, step) && u in {step.me, step.req.recipient}
                    && conversation == after.messages[step.env.newMessage].conversation then Some(None)
            else marked
  {
    StepAddsItsDelivery(box, step);
    if step.Sending? && Authenticated(step.env, step.me) {
      NoneIsFound(box, step.me, step.req.clientId);
    }
  }

  // ----- why a send is refused, and who may read

  /** A refusal names a condition that does fail. */
  ghost predicate SendFails(box: Mailbox, env: Env, me: User, req: Request, e: ApiError) {
    if !(me in env.accounts && env.accounts[me].organization in env.organizations) then e == AuthFailed
    else
      var closed := !env.organizations[env.accounts[me].organization].allowOutgoing;
      var outside := req.recipient in env.accounts
                     && env.accounts[req.recipient].organization != env.accounts[me].organization;
      match e
      case InvalidArgument => req.recipient == me
      case MessageAlreadyExists =>
        env.newMessage in box.messages
        || exists id :: id in box.messages && box.messages[id].sender == me && box.messages[id].clientId == req.clientId
                        && (box.messages[id].recipient, box.messages[id].content, box.messages[id].reference)
                           != (req.recipient, req.content, req.reference)
      case QuotaExceeded => !HasQuota(box, env, me)
      case PolicyDenied =>
        || (closed && (outside || !CanReceive(env, req.recipient)))
        || (outside && env.accounts[req.recipient].organization in env.organizations
            && !env.organizations[env.accounts[req.recipient].organization].allowIncoming)
      case RecipientNotFound => !closed && !CanReceive(env, req.recipient)
      case InternalError =>
        ConversationKey(me, req.recipient) !in box.conversations && env.newConversation in box.conversations.Values
      case _ => false
  }

  lemma {:induction false} RefusedSendSaysWhy(box: Mailbox, env: Env, me: User, req: Request)
    ensures Send(box, env, me, req).Err? ==> SendFails(box, env, me, req, Send(box, env, me, req).error)
  {
  }

  /** A message is shown to its two parties, and for anyone else there is none. */
  lemma OnlyPartiesRead(box: Mailbox, me: User, id: MessageId, now: string)
    ensures Read(box, me, id, now) == Err(MessageNotFound) <==>
            id !in box.messages || me !in {box.messages[id].sender, box.messages[id].recipient}
    ensures Read(box, me, id, now).Err? ==> Read(box, me, id, now) == Err(MessageNotFound)
    ensures Read(box, me, id, now).Ok? ==>
              Read(box, me, id, now).value ==
              if box.messages[id].readAt == None && box.messages[id].recipient == me
              then box.(messages := box.messages[id := box.messages[id].(readAt := Some(now))]) else box
  {
  }

  /** Step k of a run from the empty mailbox delivered the message. */
  ghost predicate DeliveredAt(steps: seq<Step>, k: nat, id: MessageId) {
    k < |steps| && Delivers(Run(EMPTY, steps[..k]), steps[k]) && steps[k].env.newMessage == id
  }

  lemma {:induction false} OneStepMore(box: Mailbox, steps: seq<Step>)
    requires steps != []
    ensures Run(box, steps) == Next(Run(box, steps[..|steps| - 1]), steps[|steps| - 1])
    decreases steps
  {
    if |steps| > 1 {
      OneStepMore(Next(box, steps[0]), steps[1..]);
      assert steps[1..][..|steps| - 2] == steps[..|steps| - 1][1..];
    }
  }

  lemma {:induction false} EarlierDeliveries(steps: seq<Step>, id: MessageId)
    requires steps != []
    ensures forall j: nat :: j < |steps| - 1 ==>
              (DeliveredAt(steps, j, id) <==> DeliveredAt(steps[..|steps| - 1], j, id))
  {
    forall j: nat | j < |steps| - 1
      ensures DeliveredAt(steps, j, id) <==> DeliveredAt(steps[..|steps| - 1], j, id)
    {
      assert steps[..|steps| - 1][..j] == steps[..j];
    }
  }

  /** The last step of a run keeps every message and adds the one it delivers. */
  lemma {:induction false} LastDelivery(steps: seq<Step>, id: MessageId)
    requires steps != []
    ensures var (box, after, n) := (Run(EMPTY, steps[..|steps| - 1]), Run(EMPTY, steps), |steps| - 1);
            && (id in box.messages ==>
                  id in after.messages && Matures(box.messages[id], after.messages[id]) && !DeliveredAt(steps, n, id))
            && (id !in box.messages ==> (id in after.messages <==> DeliveredAt(steps, n, id)))
            && (DeliveredAt(steps, n, id) ==> IsRequested(after.messages[id], steps[n]))
  {
    var n := |steps| - 1;
    OneStepMore(EMPTY, steps);
    StepAddsItsDelivery(Run(EMPTY, steps[..n]), steps[n]);
    RunKeepsInv(EMPTY, steps[..n]);
    StepKeepsInv(Run(EMPTY, steps[..n]), steps[n]);
  }

  /** In every run a message is there if and only if some step delivered it; that step is the
      only one, and the message is what it requested. */
  lemma {:induction false} MessagesAreTheDeliveries(steps: seq<Step>, id: MessageId) returns (k: nat)
    ensures id in Run(EMPTY, steps).messages <==> DeliveredAt(steps, k, id)
    ensures DeliveredAt(steps, k, id) ==> IsRequested(Run(EMPTY, steps).messages[id], steps[k])
    ensures forall j: nat :: DeliveredAt(steps, j, id) ==> j == k
    decreases |steps|
  {
    k := 0;
    if steps != [] {
      var n := |steps| - 1;
      k := MessagesAreTheDeliveries(steps[..n], id);
      EarlierDeliveries(steps, id);
      LastDelivery(steps, id);
      if DeliveredAt(steps, n, id) {
        k := n;
      }
    }
  }

  // ----- when a message was read

  /** Step k is a reading of the message by its recipient, after its delivery. */
  ghost predicate ReadAt(steps: seq<Step>, k: nat, id: MessageId) {
    && k < |steps| && steps[k].Reading? && steps[k].id == id && id in Run(EMPTY, steps[..k]).messages
    && steps[k].me == Run(EMPTY, steps[..k]).messages[id].recipient
  }

  /** Step k is the first such reading. */
  ghost predicate FirstReadAt(steps: seq<Step>, k: nat, id: MessageId) {
    ReadAt(steps, k, id) && forall j: nat :: j < k ==> !ReadAt(steps, j, id)
  }

  lemma {:induction false} EarlierReadings(steps: seq<Step>, k: nat, id: MessageId)
    requires k < |steps|
    ensures forall j: nat :: j < k ==> (ReadAt(steps, j, id) <==> ReadAt(steps[..k], j, id))
  {
    forall j: nat | j < k ensures ReadAt(steps, j, id) <==> ReadAt(steps[..k], j, id) {
      assert steps[..k][..j] == steps[..j];
    }
  }

  lemma {:induction false} SendReadsNothing(box: Mailbox, env: Env, me: User, req: Request, id: MessageId)
    requires id in box.messages && Send(box, env, me, req).Ok?
    ensures var after := Send(box, env, me, req).value.0;
            id in after.messages && after.messages[id] == box.messages[id]
  {
  }

  lemma {:induction false} StepReads(box: Mailbox, step: Step, id: MessageId)
    requires id in box.messages
    ensures var m := box.messages[id];
            id in Next(box, step).messages
            && Next(box, step).messages[id] ==
               if m.readAt == None && step.Reading? && step.id == id && step.me == m.recipient
               then m.(readAt := Some(step.now)) else m
  {
    match step
    case Sending(env, me, req) =>
      if Send(box, env, me, req).Ok? {
        SendReadsNothing(box, env, me, req, id);
      }
    case Reading(me, other, now) =>
    case NoReply(_, _, _) =>
  }

  /** The readings of a message by its recipient, in a run of one step more. */
  lemma {:induction false} LastReading(steps: seq<Step>, id: MessageId)
    requires steps != [] && id in Run(EMPTY, steps).messages
    ensures var (box, n) := (Run(EMPTY, steps[..|steps| - 1]), |steps| - 1);
            && (id !in box.messages ==> Run(EMPTY, steps).messages[id].readAt == None && !ReadAt(steps, n, id))
            && (id in box.messages ==>
                  Run(EMPTY, steps).messages[id] ==
                  if box.messages[id].readAt == None && ReadAt(steps, n, id)
                  then box.messages[id].(readAt := Some(steps[n].now)) else box.messages[id])
  {
    var n := |steps| - 1;
    OneStepMore(EMPTY, steps);
    StepAddsItsDelivery(Run(EMPTY, steps[..n]), steps[n]);
    if id in Run(EMPTY, steps[..n]).messages {
      StepReads(Run(EMPTY, steps[..n]), steps[n], id);
    }
  }

  /** In every run a message is unread until its recipient reads it, and then has been read at
      the time of the first such reading. */
  lemma {:induction false} ReadExactlyWhen(steps: seq<Step>, id: MessageId)
    requires id in Run(EMPTY, steps).messages
    ensures Run(EMPTY, steps).messages[id].readAt == None <==> forall k: nat :: !ReadAt(steps, k, id)
    ensures forall k: nat :: FirstReadAt(steps, k, id) ==> Run(EMPTY, steps).messages[id].readAt == Some(steps[k].now)
    decreases |steps|
  {
    var n := |steps| - 1;
    var front := steps[..n];
    LastReading(steps, id);
    EarlierReadings(steps, n, id);
    if id in Run(EMPTY, front).messages {
      ReadExactlyWhen(front, id);
      forall k: nat | FirstReadAt(steps, k, id) && k < n ensures FirstReadAt(front, k, id) {
      }
      if k: nat :| ReadAt(front, k, id) {
        assert ReadAt(steps, k, id);
      }
    } else {
      forall k: nat | ReadAt(front, k, id) ensures false {
        MessagesStay(front, k, id);
      }
    }
  }

  lemma {:induction false} MessagesStay(steps: seq<Step>, k: nat, id: MessageId)
    requires k <= |steps| && id in Run(EMPTY, steps[..k]).messages
    ensures id in Run(EMPTY, steps).messages
    decreases |steps|
  {
    if k == |steps| {
      assert steps[..k] == steps;
    } else {
      var front := steps[..|steps| - 1];
      assert front[..k] == steps[..k];
      MessagesStay(front, k, id);
      OneStepMore(EMPTY, steps);
      RunKeepsInv(EMPTY, front);
      StepKeepsInv(Run(EMPTY, front), steps[|steps| - 1]);
    }
  }
}
