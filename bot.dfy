/**
  The bot's only state, the module-level set `awaiting_birth_date`, and the
  two handlers that change it in place.  Each handler returns the events of
  its invocation; the new set is always the old one with those events
  applied, and the events are those the pure model in `Funnel` prescribes.
 */
module BotState {

  import opened PyStr
  import opened Funnel

  class Bot {
    const config: Config
    /** Ids of the users the bot is waiting on for a birth date. */
    var awaitingBirthDate: set<int>
    /** Ids whose membership lookup has ever said subscribed. */
    ghost var passedGate: set<int>

    /** Only users who passed the subscription check are ever awaited. */
    ghost predicate Valid()
      reads this
    {
      awaitingBirthDate <= passedGate
    }

    /** The process starts with nobody awaiting a date. */
    constructor (config: Config)
      ensures Valid()
      ensures this.config == config && awaitingBirthDate == {} && passedGate == {}
    {
      this.config := config;
      awaitingBirthDate := {};
      passedGate := {};
    }

    /** `start_handler`: look the sender up in the channel; a subscriber is
        added to the awaiting set and asked for the date, anyone else gets the
        subscribe prompt.  Any error inside the try block is answered with the
        generic error reply. */
    method StartHandler(msg: Message, lookup: Lookup, failedSends: set<nat>) returns (trace: seq<Event>)
      requires Valid()
      modifies this
      ensures Valid()
      ensures trace == StartTrace(config, msg.sender, lookup, failedSends)
      ensures awaitingBirthDate == Replay(old(awaitingBirthDate), trace)
      ensures passedGate == old(passedGate) + (if Subscribed(lookup) then {msg.sender.id} else {})
    {
      var userId := msg.sender.id;
      match lookup
      case LookupFailed =>
        trace := [Sent(Answer(TryLater), Delivers(failedSends, 0))];
        Unfold1(awaitingBirthDate, trace[0]);
      case Status(status) =>
        var answered := Delivers(failedSends, 0);
        ghost var before := awaitingBirthDate;
        if IsSubscribed(status) {
          awaitingBirthDate := awaitingBirthDate + {userId};
          passedGate := passedGate + {userId};
          trace := [Added(userId), Sent(Answer(DatePrompt), answered)];
          Unfold2(before, trace[0], trace[1]);
        } else {
          trace := [Sent(Answer(SubscribePrompt(ChannelUrl(config.channel))), answered)];
          Unfold1(before, trace[0]);
        }
        if !answered {
          ghost var first := trace;
          trace := trace + [Sent(Answer(TryLater), Delivers(failedSends, 1))];
          ReplayAppend(before, first, [trace[|trace| - 1]]);
          Unfold1(Replay(before, first), trace[|trace| - 1]);
        }
    }

    /** `handle_text`: an awaiting sender's stripped text is checked; an
        accepted one is sent to the administrator and, once that call has
        returned, the sender is discarded and thanked.  A sender who is not
        awaiting gets `start_handler`. */
    method HandleText(msg: Message, lookup: Lookup, failedSends: set<nat>) returns (trace: seq<Event>)
      requires Valid()
      modifies this
      ensures Valid()
      ensures trace == TextTrace(config, old(awaitingBirthDate), msg, lookup, failedSends)
      ensures awaitingBirthDate == Replay(old(awaitingBirthDate), trace)
      ensures Leads(trace) != [] ==> msg.sender.id in old(passedGate)
      ensures passedGate == old(passedGate) +
                (if msg.sender.id !in old(awaitingBirthDate) && Subscribed(lookup) then {msg.sender.id} else {})
    {
      var userId := msg.sender.id;
      ghost var before := awaitingBirthDate;
      if userId in awaitingBirthDate {
        var birthDate := Strip(msg.text);
        if IsAcceptedDate(birthDate) {
          var handle := LeadHandle(msg.sender);
          var notified := Delivers(failedSends, 0);
          var notify := Sent(Notify(config.adminId, Lead(handle, birthDate)), notified);
          if notified {
            awaitingBirthDate := awaitingBirthDate - {userId};
            trace := [notify, Discarded(userId), Sent(Answer(LeadAccepted), Delivers(failedSends, 1))];
            Unfold3(before, trace[0], trace[1], trace[2]);
            assert trace == ForwardLead(config, msg.sender, birthDate, failedSends);
          } else {
            trace := [notify];
            Unfold1(before, notify);
            assert trace == ForwardLead(config, msg.sender, birthDate, failedSends);
          }
        } else {
          trace := [Sent(Answer(FormatPrompt), Delivers(failedSends, 0))];
          Unfold1(before, trace[0]);
        }
      } else {
        trace := StartHandler(msg, lookup, failedSends);
        StartSendsNoLead(config, msg.sender, lookup, failedSends);
      }
    }
  }
}
