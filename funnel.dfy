/**
  The per-user decision logic of the bot's two handlers, `start_handler` and
  `handle_text`, as pure functions.  Every call into the messaging platform is
  an input (the membership lookup's answer, which outbound calls fail) or an
  entry of the returned event trace (what is sent, and to whom).  The awaiting
  set itself is changed only by the `Added`/`Discarded` events of a trace;
  `Replay` applies them.
 */
module Funnel {

  import opened Wrappers
  import opened PyStr

  // ---------------------------------------------------------------------------
  // Data model
  // ---------------------------------------------------------------------------

  /** The sender of a message: numeric id and optional public username. */
  datatype User = User(id: int, username: Option<string>)

  /** An incoming text message. */
  datatype Message = Message(sender: User, text: string)

  /** The configured channel (written "@name") and the id that receives leads. */
  datatype Config = Config(channel: string, adminId: int)

  /** The answer of the chat-member lookup: the member's status string, or the
      lookup raised. */
  datatype Lookup = Status(status: string) | LookupFailed

  /** The replies the bot gives in the chat the message came from. */
  datatype Reply =
    | DatePrompt                        // subscribed: asks for dd.mm.yyyy
    | SubscribePrompt(channelUrl: string) // not subscribed: button to the channel
    | TryLater                          // a platform call raised
    | LeadAccepted                      // the lead was forwarded
    | FormatPrompt                      // the text was not taken as a date

  /** What the administrator is told about a new lead. */
  datatype Lead = Lead(handle: string, birthDate: string)

  datatype Outbound = Answer(reply: Reply) | Notify(chatId: int, lead: Lead)

  /** One step of a handler invocation: an outbound call (and whether it went
      through or raised), or a change to the awaiting set. */
  datatype Event =
    | Sent(msg: Outbound, delivered: bool)
    | Added(uid: int)
    | Discarded(uid: int)

  /** The k-th outbound call (from 0) of one handler invocation raises exactly
      when k is in `failedSends`. */
  predicate Delivers(failedSends: set<nat>, k: nat) {
    k !in failedSends
  }

  // ---------------------------------------------------------------------------
  // The inline predicates and formatting of the handlers
  // ---------------------------------------------------------------------------

  /** The statuses the chat-member lookup can return. */
  datatype MemberStatus = Creator | Administrator | Member | Restricted | Left | Kicked

  function StatusName(st: MemberStatus): string {
    match st
    case Creator => "creator"
    case Administrator => "administrator"
    case Member => "member"
    case Restricted => "restricted"
    case Left => "left"
    case Kicked => "kicked"
  }

  /** The subscription test `status in ['member', 'administrator', 'creator']`. */
  predicate IsSubscribed(status: string): (r: bool)
    ensures r <==> status == "member" || status == "administrator" || status == "creator"
  {
    status in ["member", "administrator", "creator"]
  }

  /** Exactly the creator, administrators and plain members count as
      subscribed; restricted, departed and banned users do not. */
  lemma SubscribedStatuses(st: MemberStatus)
    ensures IsSubscribed(StatusName(st)) <==> st in {Creator, Administrator, Member}
  {
    assert StatusName(st) in ["member", "administrator", "creator"] <==>
      StatusName(st) == "member" || StatusName(st) == "administrator" || StatusName(st) == "creator";
  }

  predicate Subscribed(lookup: Lookup) {
    lookup.Status? && IsSubscribed(lookup.status)
  }

  /** The format test applied to the stripped text. */
  predicate IsAcceptedDate(birthDate: string): (r: bool)
    ensures r <==> |birthDate| >= 8 && exists i :: 0 <= i < |birthDate| && birthDate[i] == '.'
  {
    |birthDate| >= 8 && '.' in birthDate
  }

  /** A text is taken as a birth date exactly when, without the whitespace at
      its ends, it is at least eight characters long, and it has a dot. */
  lemma AcceptedTextIff(text: string)
    ensures IsAcceptedDate(Strip(text)) <==> |Strip(text)| >= 8 && '.' in text
  {
    StripKeepsVisible(text, '.');
  }

  /** Whitespace around the text never changes whether it is accepted. */
  lemma AcceptanceIgnoresPadding(pre: string, text: string, post: string)
    requires AllSpace(pre) && AllSpace(post)
    ensures IsAcceptedDate(Strip(pre + text + post)) == IsAcceptedDate(Strip(text))
  {
    StripIgnoresPadding(pre, text, post);
  }

  /** A typical date is accepted, and is passed on unchanged. */
  lemma AcceptsPlainDate()
    ensures Strip("15.08.1990") == "15.08.1990"
    ensures IsAcceptedDate(Strip("15.08.1990"))
  {
    var d := "15.08.1990";
    assert d[0] == '1' && d[|d| - 1] == '0';
    StripOfTrimmed(d);
    assert d[2] == '.';
  }

  /** ... also with whitespace around it, which is dropped. */
  lemma AcceptsPaddedDate(pre: string, post: string)
    requires AllSpace(pre) && AllSpace(post)
    ensures Strip(pre + "15.08.1990" + post) == "15.08.1990"
    ensures IsAcceptedDate(Strip(pre + "15.08.1990" + post))
  {
    AcceptsPlainDate();
    StripIgnoresPadding(pre, "15.08.1990", post);
  }

  /** The test is about length and a dot, not the calendar: 31 February
      passes. */
  lemma AcceptsNonexistentDay()
    ensures IsAcceptedDate(Strip("31.02.2024"))
  {
    var d := "31.02.2024";
    assert d[0] == '3' && d[|d| - 1] == '4';
    StripOfTrimmed(d);
    assert d[2] == '.';
  }

  /** Digits without a dot, or a date shorter than eight characters, fail. */
  lemma RejectsWithoutDotOrLength()
    ensures !IsAcceptedDate(Strip("15081990"))
    ensures !IsAcceptedDate(Strip("1.1.90"))
  {
    var d := "15081990";
    assert d[0] == '1' && d[|d| - 1] == '0';
    StripOfTrimmed(d);
    assert forall k :: 0 <= k < |d| ==> d[k] != '.';
    var e := "1.1.90";
    assert e[0] == '1' && e[|e| - 1] == '0';
    StripOfTrimmed(e);
  }

  /** Who a lead handle names. */
  datatype Sender = ByUsername(name: string) | ById(id: int)

  /** A username counts only when it is present and not empty (Python
      truthiness). */
  function SenderOf(user: User): (s: Sender)
    ensures s.ByUsername? <==> user.username.Some? && |user.username.value| > 0
    ensures s.ByUsername? ==> s.name == user.username.value
    ensures s.ById? ==> s.id == user.id
  {
    if user.username.Some? && user.username.value != "" then ByUsername(user.username.value)
    else ById(user.id)
  }

  /** The handle put into a lead: "@" and the username, or "ID" and the id. */
  function LeadHandle(user: User): (h: string)
    ensures |h| >= 2
    ensures h[0] == '@' <==> SenderOf(user).ByUsername?
  {
    if user.username.Some? && user.username.value != "" then "@" + user.username.value
    else "ID" + IntToDecimal(user.id)
  }

  /** Reads a handle back. */
  function ParseHandle(h: string): Option<Sender> {
    if |h| >= 1 && h[0] == '@' then Some(ByUsername(h[1..]))
    else if |h| >= 2 && h[..2] == "ID" then
      match ParseInt(h[2..])
      case Some(id) => Some(ById(id))
      case None => None
    else None
  }

  /** A lead handle identifies its sender: the username when there is one,
      otherwise the numeric id. */
  lemma HandleRoundTrip(user: User)
    ensures ParseHandle(LeadHandle(user)) == Some(SenderOf(user))
  {
    var h := LeadHandle(user);
    if SenderOf(user).ById? {
      assert h[..2] == "ID" && h[2..] == IntToDecimal(user.id);
      IntDecimalRoundTrip(user.id);
    } else {
      assert h[1..] == user.username.value;
    }
  }

  /** Two senders told apart by SenderOf get different handles. */
  lemma HandleInjective(u: User, v: User)
    requires SenderOf(u) != SenderOf(v)
    ensures LeadHandle(u) != LeadHandle(v)
  {
    HandleRoundTrip(u);
    HandleRoundTrip(v);
  }

  const TmeBase: string := "https://t.me/"

  /** The channel button's target `https://t.me/` + `CHANNEL_USERNAME[1:]`. */
  function ChannelUrl(channel: string): (r: string)
    ensures TmeBase <= r
    ensures |r| == |TmeBase| + (if channel == [] then 0 else |channel| - 1)
    ensures forall i :: |TmeBase| <= i < |r| ==> r[i] == channel[i - |TmeBase| + 1]
  {
    TmeBase + SliceFrom(channel, 1)
  }

  /** For a channel configured as "@name" the link is t.me/name. */
  lemma ChannelUrlOfName(name: string)
    ensures ChannelUrl("@" + name) == TmeBase + name
  {
    assert SliceFrom("@" + name, 1) == name;
  }

  // ---------------------------------------------------------------------------
  // Traces and their effect on the awaiting set
  // ---------------------------------------------------------------------------

  function Apply(awaiting: set<int>, e: Event): set<int> {
    match e
    case Added(id) => awaiting + {id}
    case Discarded(id) => awaiting - {id}
    case Sent(_, _) => awaiting
  }

  /** The awaiting set after the events of `t`, in order. */
  function Replay(awaiting: set<int>, t: seq<Event>): set<int>
    decreases |t|
  {
    if t == [] then awaiting else Replay(Apply(awaiting, t[0]), t[1..])
  }

  lemma {:induction false} ReplayAppend(awaiting: set<int>, a: seq<Event>, b: seq<Event>)
    ensures Replay(awaiting, a + b) == Replay(Replay(awaiting, a), b)
    decreases |a|
  {
    if a == [] {
      assert a + b == b;
    } else {
      assert (a + b)[0] == a[0] && (a + b)[1..] == a[1..] + b;
      ReplayAppend(Apply(awaiting, a[0]), a[1..], b);
    }
  }

  /** The reply an event sends, if any. */
  function ReplyOf(e: Event): seq<Reply> {
    if e.Sent? && e.msg.Answer? then [e.msg.reply] else []
  }

  /** The lead an event sends, if any. */
  function LeadOf(e: Event): seq<Lead> {
    if e.Sent? && e.msg.Notify? then [e.msg.lead] else []
  }

  /** Every change to the awaiting set in `t` is about `id`. */
  predicate TouchesOnly(t: seq<Event>, id: int) {
    forall k :: 0 <= k < |t| ==> !t[k].Sent? ==> t[k].uid == id
  }

  /** A trace that only touches `id` leaves every other id's membership alone. */
  lemma {:induction false} ReplayFrame(awaiting: set<int>, t: seq<Event>, id: int, other: int)
    requires TouchesOnly(t, id) && other != id
    ensures other in Replay(awaiting, t) <==> other in awaiting
    decreases |t|
  {
    if t != [] {
      assert TouchesOnly(t[1..], id) by {
        forall k | 0 <= k < |t| - 1 ensures !t[1..][k].Sent? ==> t[1..][k].uid == id {
          assert t[1..][k] == t[k + 1];
        }
      }
      ReplayFrame(Apply(awaiting, t[0]), t[1..], id, other);
    }
  }

  /** The replies the user is sent, in order. */
  function Replies(t: seq<Event>): seq<Reply>
    decreases |t|
  {
    if t == [] then []
    else ReplyOf(t[0]) + Replies(t[1..])
  }

  /** The leads sent to someone, in order. */
  function Leads(t: seq<Event>): seq<Lead>
    decreases |t|
  {
    if t == [] then []
    else LeadOf(t[0]) + Leads(t[1..])
  }

  /** The three views of a trace, one event at a time. */
  lemma UnfoldCons(awaiting: set<int>, e: Event, t: seq<Event>)
    ensures Replay(awaiting, [e] + t) == Replay(Apply(awaiting, e), t)
    ensures Replies([e] + t) == ReplyOf(e) + Replies(t)
    ensures Leads([e] + t) == LeadOf(e) + Leads(t)
  {
    assert ([e] + t)[0] == e && ([e] + t)[1..] == t;
  }

  lemma Unfold1(awaiting: set<int>, e1: Event)
    ensures Replay(awaiting, [e1]) == Apply(awaiting, e1)
    ensures Replies([e1]) == ReplyOf(e1) && Leads([e1]) == LeadOf(e1)
  {
    assert [e1] == [e1] + [];
    UnfoldCons(awaiting, e1, []);
  }

  lemma Unfold2(awaiting: set<int>, e1: Event, e2: Event)
    ensures Replay(awaiting, [e1, e2]) == Apply(Apply(awaiting, e1), e2)
    ensures Replies([e1, e2]) == ReplyOf(e1) + ReplyOf(e2)
    ensures Leads([e1, e2]) == LeadOf(e1) + LeadOf(e2)
  {
    assert [e1, e2] == [e1] + [e2];
    UnfoldCons(awaiting, e1, [e2]);
    Unfold1(Apply(awaiting, e1), e2);
  }

  lemma Unfold3(awaiting: set<int>, e1: Event, e2: Event, e3: Event)
    ensures Replay(awaiting, [e1, e2, e3]) == Apply(Apply(Apply(awaiting, e1), e2), e3)
    ensures Replies([e1, e2, e3]) == ReplyOf(e1) + ReplyOf(e2) + ReplyOf(e3)
    ensures Leads([e1, e2, e3]) == LeadOf(e1) + LeadOf(e2) + LeadOf(e3)
  {
    assert [e1, e2, e3] == [e1] + [e2, e3];
    UnfoldCons(awaiting, e1, [e2, e3]);
    Unfold2(Apply(awaiting, e1), e2, e3);
  }

  /** Unfolds whichever of the three shapes `t` has. */
  lemma Unfold(awaiting: set<int>, t: seq<Event>)
    requires 1 <= |t| <= 3
    ensures |t| == 1 ==> Replay(awaiting, t) == Apply(awaiting, t[0]) &&
                         Replies(t) == ReplyOf(t[0]) && Leads(t) == LeadOf(t[0])
    ensures |t| == 2 ==> Replay(awaiting, t) == Apply(Apply(awaiting, t[0]), t[1]) &&
                         Replies(t) == ReplyOf(t[0]) + ReplyOf(t[1]) &&
                         Leads(t) == LeadOf(t[0]) + LeadOf(t[1])
    ensures |t| == 3 ==> Replay(awaiting, t) == Apply(Apply(Apply(awaiting, t[0]), t[1]), t[2]) &&
                         Replies(t) == ReplyOf(t[0]) + ReplyOf(t[1]) + ReplyOf(t[2]) &&
                         Leads(t) == LeadOf(t[0]) + LeadOf(t[1]) + LeadOf(t[2])
  {
    if |t| == 1 {
      assert t == [t[0]];
      Unfold1(awaiting, t[0]);
    } else if |t| == 2 {
      assert t == [t[0], t[1]];
      Unfold2(awaiting, t[0], t[1]);
    } else {
      assert t == [t[0], t[1], t[2]];
      Unfold3(awaiting, t[0], t[1], t[2]);
    }
  }

  /** The handler ended with an uncaught exception: its last outbound call
      raised and nothing caught it. */
  predicate Raised(t: seq<Event>) {
    |t| > 0 && t[|t| - 1].Sent? && !t[|t| - 1].delivered
  }

  /** Every removal from the awaiting set directly follows an administrator
      notification that went through. */
  predicate DiscardsAfterNotify(t: seq<Event>) {
    forall k :: 0 <= k < |t| && t[k].Discarded? ==>
      0 < k && t[k - 1].Sent? && t[k - 1].msg.Notify? && t[k - 1].delivered
  }

  // ---------------------------------------------------------------------------
  // start_handler
  // ---------------------------------------------------------------------------

  /** What `start_handler` does for `user`.  The lookup and both replies sit in
      one try block whose handler answers with the generic error; an error in
      that answer leaves the handler. */
  function StartTrace(config: Config, user: User, lookup: Lookup, failedSends: set<nat>): (t: seq<Event>)
    ensures 1 <= |t| <= 3
    ensures TouchesOnly(t, user.id)
    ensures forall k :: 0 <= k < |t| ==> !t[k].Discarded?
    ensures Raised(t) <==> !Delivers(failedSends, 0) && (lookup.Status? ==> !Delivers(failedSends, 1))
  {
    match lookup
    case LookupFailed =>
      [Sent(Answer(TryLater), Delivers(failedSends, 0))]
    case Status(status) =>
      var first :=
        if IsSubscribed(status) then [Added(user.id), Sent(Answer(DatePrompt), Delivers(failedSends, 0))]
        else [Sent(Answer(SubscribePrompt(ChannelUrl(config.channel))), Delivers(failedSends, 0))];
      if Delivers(failedSends, 0) then first
      else first + [Sent(Answer(TryLater), Delivers(failedSends, 1))]
  }

  /** A start puts the sender into the awaiting set exactly when the lookup
      says subscribed, never removes anyone, and touches no other id. */
  lemma StartEffect(awaiting: set<int>, config: Config, user: User, lookup: Lookup, failedSends: set<nat>)
    ensures Replay(awaiting, StartTrace(config, user, lookup, failedSends))
         == if Subscribed(lookup) then awaiting + {user.id} else awaiting
  {
    Unfold(awaiting, StartTrace(config, user, lookup, failedSends));
  }

  /** A subscribed start asks for the date first. */
  lemma StartSubscribed(config: Config, user: User, lookup: Lookup, failedSends: set<nat>)
    requires Subscribed(lookup)
    ensures Replies(StartTrace(config, user, lookup, failedSends))
         == [DatePrompt] + (if Delivers(failedSends, 0) then [] else [TryLater])
    ensures Leads(StartTrace(config, user, lookup, failedSends)) == []
  {
    Unfold({}, StartTrace(config, user, lookup, failedSends));
  }

  /** A start from a user who is not subscribed leaves the awaiting set as it
      was and shows the subscribe prompt with the channel link. */
  lemma StartNotSubscribed(awaiting: set<int>, config: Config, user: User, status: string, failedSends: set<nat>)
    requires !IsSubscribed(status)
    ensures Replay(awaiting, StartTrace(config, user, Status(status), failedSends)) == awaiting
    ensures Replies(StartTrace(config, user, Status(status), failedSends))
         == [SubscribePrompt(ChannelUrl(config.channel))] + (if Delivers(failedSends, 0) then [] else [TryLater])
    ensures Leads(StartTrace(config, user, Status(status), failedSends)) == []
  {
    Unfold(awaiting, StartTrace(config, user, Status(status), failedSends));
  }

  /** A start never sends a lead. */
  lemma StartSendsNoLead(config: Config, user: User, lookup: Lookup, failedSends: set<nat>)
    ensures Leads(StartTrace(config, user, lookup, failedSends)) == []
  {
    Unfold({}, StartTrace(config, user, lookup, failedSends));
  }

  /** A failed lookup leaves the awaiting set as it was and gives only the
      generic error reply. */
  lemma StartLookupFailed(awaiting: set<int>, config: Config, user: User, failedSends: set<nat>)
    ensures Replay(awaiting, StartTrace(config, user, LookupFailed, failedSends)) == awaiting
    ensures Replies(StartTrace(config, user, LookupFailed, failedSends)) == [TryLater]
    ensures Leads(StartTrace(config, user, LookupFailed, failedSends)) == []
  {
    Unfold(awaiting, StartTrace(config, user, LookupFailed, failedSends));
  }

  // ---------------------------------------------------------------------------
  // handle_text
  // ---------------------------------------------------------------------------

  /** The accepted-date branch of `handle_text`: notify the administrator and,
      only if that call returns, discard the sender and thank them. */
  function ForwardLead(config: Config, user: User, birthDate: string, failedSends: set<nat>): (t: seq<Event>)
    ensures 1 <= |t| <= 3
    ensures TouchesOnly(t, user.id) && DiscardsAfterNotify(t)
  {
    var notify := Sent(Notify(config.adminId, Lead(LeadHandle(user), birthDate)), Delivers(failedSends, 0));
    if Delivers(failedSends, 0) then [notify, Discarded(user.id), Sent(Answer(LeadAccepted), Delivers(failedSends, 1))]
    else [notify]
  }

  /** What `handle_text` does.  For an awaiting sender the stripped text is
      checked; an accepted one is forwarded to the administrator.  Nothing
      catches an error here.  Anyone else gets the start logic. */
  function TextTrace(config: Config, awaiting: set<int>, msg: Message, lookup: Lookup, failedSends: set<nat>): (t: seq<Event>)
    ensures 1 <= |t| <= 3
    ensures TouchesOnly(t, msg.sender.id)
    ensures msg.sender.id !in awaiting ==> t == StartTrace(config, msg.sender, lookup, failedSends)
    ensures DiscardsAfterNotify(t)
  {
    if msg.sender.id in awaiting then
      var birthDate := Strip(msg.text);
      if IsAcceptedDate(birthDate) then ForwardLead(config, msg.sender, birthDate, failedSends)
      else [Sent(Answer(FormatPrompt), Delivers(failedSends, 0))]
    else
      StartTrace(config, msg.sender, lookup, failedSends)
  }

  /** For an awaiting sender a lead goes out exactly when the stripped text is
      at least eight characters long and the text has a dot; the lead carries
      the sender's handle and the stripped text, and goes to the administrator. */
  lemma TextForwardsLeadIff(config: Config, awaiting: set<int>, msg: Message, lookup: Lookup, failedSends: set<nat>)
    requires msg.sender.id in awaiting
    ensures Leads(TextTrace(config, awaiting, msg, lookup, failedSends)) != []
        <==> |Strip(msg.text)| >= 8 && '.' in msg.text
    ensures Leads(TextTrace(config, awaiting, msg, lookup, failedSends)) != [] ==>
              TextTrace(config, awaiting, msg, lookup, failedSends)[0].msg
                == Notify(config.adminId, Lead(LeadHandle(msg.sender), Strip(msg.text)))
  {
    AcceptedTextIff(msg.text);
    Unfold(awaiting, TextTrace(config, awaiting, msg, lookup, failedSends));
  }

  /** An accepted text removes the sender only once the administrator has been
      notified; if that notification raises, the sender still awaits. */
  lemma TextAcceptedEffect(config: Config, awaiting: set<int>, msg: Message, lookup: Lookup, failedSends: set<nat>)
    requires msg.sender.id in awaiting && IsAcceptedDate(Strip(msg.text))
    ensures Replay(awaiting, TextTrace(config, awaiting, msg, lookup, failedSends))
         == if Delivers(failedSends, 0) then awaiting - {msg.sender.id} else awaiting
    ensures !Delivers(failedSends, 0) ==>
              Raised(TextTrace(config, awaiting, msg, lookup, failedSends)) &&
              Replies(TextTrace(config, awaiting, msg, lookup, failedSends)) == []
    ensures Delivers(failedSends, 0) ==>
              Replies(TextTrace(config, awaiting, msg, lookup, failedSends)) == [LeadAccepted]
  {
    Unfold(awaiting, TextTrace(config, awaiting, msg, lookup, failedSends));
  }

  /** A rejected text leaves the awaiting set as it was and re-prompts for the
      format. */
  lemma TextRejected(config: Config, awaiting: set<int>, msg: Message, lookup: Lookup, failedSends: set<nat>)
    requires msg.sender.id in awaiting && !IsAcceptedDate(Strip(msg.text))
    ensures Replay(awaiting, TextTrace(config, awaiting, msg, lookup, failedSends)) == awaiting
    ensures Replies(TextTrace(config, awaiting, msg, lookup, failedSends)) == [FormatPrompt]
    ensures Leads(TextTrace(config, awaiting, msg, lookup, failedSends)) == []
  {
    Unfold(awaiting, TextTrace(config, awaiting, msg, lookup, failedSends));
  }

  /** Either handler changes the membership of the sender's id only. */
  lemma HandlersTouchOnlySender(config: Config, awaiting: set<int>, msg: Message, lookup: Lookup, failedSends: set<nat>, other: int)
    requires other != msg.sender.id
    ensures other in Replay(awaiting, StartTrace(config, msg.sender, lookup, failedSends)) <==> other in awaiting
    ensures other in Replay(awaiting, TextTrace(config, awaiting, msg, lookup, failedSends)) <==> other in awaiting
  {
    ReplayFrame(awaiting, StartTrace(config, msg.sender, lookup, failedSends), msg.sender.id, other);
    ReplayFrame(awaiting, TextTrace(config, awaiting, msg, lookup, failedSends), msg.sender.id, other);
  }

  /** After a lead has been forwarded, the sender's next text is handled as a
      fresh start rather than as another date. */
  lemma LeadRestartsFunnel(config: Config, awaiting: set<int>, msg: Message, lookup: Lookup, failedSends: set<nat>,
                           next: Message, nextLookup: Lookup, nextFailed: set<nat>)
    requires msg.sender.id in awaiting && IsAcceptedDate(Strip(msg.text)) && Delivers(failedSends, 0)
    requires next.sender.id == msg.sender.id
    ensures var after := Replay(awaiting, TextTrace(config, awaiting, msg, lookup, failedSends));
            TextTrace(config, after, next, nextLookup, nextFailed)
              == StartTrace(config, next.sender, nextLookup, nextFailed)
  {
    TextAcceptedEffect(config, awaiting, msg, lookup, failedSends);
  }

  /** A user whose status is not subscribed, and who is not awaiting, stays out
      of the awaiting set and gets no further than the subscribe prompt,
      whatever they send. */
  lemma NotSubscribedNeverPasses(config: Config, awaiting: set<int>, msg: Message, status: string, failedSends: set<nat>)
    requires msg.sender.id !in awaiting && !IsSubscribed(status)
    ensures msg.sender.id !in Replay(awaiting, TextTrace(config, awaiting, msg, Status(status), failedSends))
    ensures Leads(TextTrace(config, awaiting, msg, Status(status), failedSends)) == []
    ensures Replies(TextTrace(config, awaiting, msg, Status(status), failedSends))[0]
         == SubscribePrompt(ChannelUrl(config.channel))
  {
    StartNotSubscribed(awaiting, config, msg.sender, status, failedSends);
  }

  /** The text half of the scenario below: an awaiting user sends
      "15.08.1990" and every call goes through. */
  lemma DateAcceptedWhenAwaiting(config: Config, awaiting: set<int>, user: User, lookup: Lookup)
    requires user.id in awaiting
    ensures Leads(TextTrace(config, awaiting, Message(user, "15.08.1990"), lookup, {}))
         == [Lead(LeadHandle(user), "15.08.1990")]
    ensures Replies(TextTrace(config, awaiting, Message(user, "15.08.1990"), lookup, {})) == [LeadAccepted]
    ensures Replay(awaiting, TextTrace(config, awaiting, Message(user, "15.08.1990"), lookup, {}))
         == awaiting - {user.id}
  {
    AcceptsPlainDate();
    var t := TextTrace(config, awaiting, Message(user, "15.08.1990"), lookup, {});
    assert t == ForwardLead(config, user, "15.08.1990", {});
    Unfold3(awaiting, t[0], t[1], t[2]);
  }

  /** The scenario in which a member starts, sends "15.08.1990" and everything
      is delivered: the administrator gets the lead, the user is thanked and no
      longer awaits. */
  lemma HappyPath(config: Config, awaiting: set<int>, user: User)
    requires user.id !in awaiting
    ensures user.id in Replay(awaiting, StartTrace(config, user, Status("member"), {}))
    ensures var a1 := Replay(awaiting, StartTrace(config, user, Status("member"), {}));
            var t2 := TextTrace(config, a1, Message(user, "15.08.1990"), Status("member"), {});
            && Leads(t2) == [Lead(LeadHandle(user), "15.08.1990")]
            && Replies(t2) == [LeadAccepted]
            && Replay(a1, t2) == awaiting
  {
    assert IsSubscribed("member");
    StartEffect(awaiting, config, user, Status("member"), {});
    var a1 := Replay(awaiting, StartTrace(config, user, Status("member"), {}));
    DateAcceptedWhenAwaiting(config, a1, user, Status("member"));
    assert a1 - {user.id} == awaiting;
  }
}
