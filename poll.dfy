/**
 * The poll-driven deletion workflow of handlers/poll.py.
 *
 * The registry is the file active_polls.json, a JSON object from poll id to chat id.
 * Every registry operation re-reads the whole file, changes the map and writes the whole
 * file back, so the model keeps the file itself as state (class PollRegistry) and records
 * every write it attempts. The two handlers return the calls they make to the messaging
 * platform, in order; whether a platform call or a file write fails is a parameter.
 */
module Poll {
  import opened Wrappers
  import opened Text

  /** What active_polls.json holds: absent, present but not readable as a JSON map, or a map. */
  datatype RegistryFile = Missing | Unreadable | Stored(polls: map<string, int>)

  /** How one whole-file write ends: it succeeds, `open(..., "w")` raises (the file is left as
      it was), or `json.dump` raises after `open` has truncated the file. */
  datatype WriteFault = NoFault | OpenFails | DumpFails

  /** `load_polls()`: the stored map, or the empty map when the file is missing or unreadable. */
  function LoadPolls(file: RegistryFile): map<string, int> {
    if file.Stored? then file.polls else map[]
  }

  /** The file after one attempt to write `content` over it. */
  function AfterWrite(file: RegistryFile, content: map<string, int>, fault: WriteFault): RegistryFile {
    match fault
    case NoFault => Stored(content)
    case OpenFails => file
    case DumpFails => Unreadable
  }

  /** The file after `save_poll(pollId, chatId)`. */
  function SavedFile(file: RegistryFile, pollId: string, chatId: int, fault: WriteFault): RegistryFile {
    AfterWrite(file, LoadPolls(file)[pollId := chatId], fault)
  }

  /** The file after `remove_poll(pollId)`: nothing is written when the id is not registered. */
  function RemovedFile(file: RegistryFile, pollId: string, fault: WriteFault): RegistryFile {
    if pollId in LoadPolls(file) then AfterWrite(file, LoadPolls(file) - {pollId}, fault) else file
  }

  /** A missing or unreadable registry file reads as the empty registry. */
  lemma LoadFallsBackToEmpty(file: RegistryFile)
    requires !file.Stored?
    ensures LoadPolls(file) == map[]
  {
  }

  /** A successful `save_poll` maps the poll to the chat, overwriting any earlier chat
      for it, and keeps every other entry as it read it. */
  lemma SaveMapsOnlyItsPoll(file: RegistryFile, pollId: string, chatId: int)
    ensures pollId in LoadPolls(SavedFile(file, pollId, chatId, NoFault))
    ensures LoadPolls(SavedFile(file, pollId, chatId, NoFault))[pollId] == chatId
    ensures forall k :: k != pollId ==>
      (k in LoadPolls(SavedFile(file, pollId, chatId, NoFault)) <==> k in LoadPolls(file))
    ensures forall k :: k != pollId && k in LoadPolls(file) ==>
      LoadPolls(SavedFile(file, pollId, chatId, NoFault))[k] == LoadPolls(file)[k]
  {
  }

  /** A successful `remove_poll` deletes exactly its poll; for an unregistered poll the
      file is left as it was, whatever write fault would have occurred. */
  lemma RemoveDeletesOnlyItsPoll(file: RegistryFile, pollId: string, fault: WriteFault)
    ensures LoadPolls(RemovedFile(file, pollId, NoFault)) == LoadPolls(file) - {pollId}
    ensures pollId !in LoadPolls(file) ==> RemovedFile(file, pollId, fault) == file
  {
  }

  /** The registry, as the file on disk plus the log of whole-file writes attempted on it. */
  class PollRegistry {
    var file: RegistryFile
    var writes: seq<map<string, int>>

    constructor (onDisk: RegistryFile)
      ensures file == onDisk && writes == []
    {
      file := onDisk;
      writes := [];
    }

    /** The registry as `load_polls()` reads it now. */
    function Polls(): map<string, int>
      reads this
    {
      LoadPolls(file)
    }

    /** `save_poll`: read, set `pollId` to `chatId`, write the whole map back. A failing
        write is logged and swallowed. */
    method SavePoll(pollId: string, chatId: int, fault: WriteFault)
      modifies this
      ensures writes == old(writes) + [old(Polls())[pollId := chatId]]
      ensures file == SavedFile(old(file), pollId, chatId, fault)
    {
      var polls := LoadPolls(file);
      polls := polls[pollId := chatId];
      writes := writes + [polls];
      file := AfterWrite(file, polls, fault);
    }

    /** `remove_poll`: read; when `pollId` is registered, delete it and write the whole map
        back; otherwise write nothing. */
    method RemovePoll(pollId: string, fault: WriteFault)
      modifies this
      ensures pollId !in old(Polls()) ==> file == old(file) && writes == old(writes)
      ensures pollId in old(Polls()) ==> writes == old(writes) + [old(Polls()) - {pollId}]
      ensures file == RemovedFile(old(file), pollId, fault)
    {
      var polls := LoadPolls(file);
      if pollId in polls {
        polls := polls - {pollId};
        writes := writes + [polls];
        file := AfterWrite(file, polls, fault);
      }
    }
  }

  /** A chat as a handler sees it; `kind` is Telegram's chat type ("private", "group", ...). */
  datatype Chat = Chat(id: int, kind: string)

  /** One option of a poll snapshot and how many voted for it. */
  datatype PollOption = PollOption(text: string, voterCount: nat)

  /** The poll snapshot a poll-state callback delivers. */
  datatype PollSnapshot = PollSnapshot(id: string, isClosed: bool, options: seq<PollOption>)

  /** A call the workflow makes to the messaging platform. */
  datatype BotCall =
    | Answer(chatId: int, text: string)
    | AnswerPoll(chatId: int, question: string, options: seq<string>, isAnonymous: bool,
                 pollType: string, openPeriod: nat)
    | SendMessage(chatId: int, announcement: Announcement)
    | LeaveChat(chatId: int)

  const GroupOnlyNotice := "This command can only be used in groups."

  /** The vote `cmd_poll_delete` starts: two options, not anonymous, open for six hours. */
  function DeletionPoll(chatId: int): BotCall {
    AnswerPoll(chatId, "Delete the bot from the group?", ["Yes", "No"], false, "regular", 21600)
  }

  predicate IsGroupChat(chat: Chat) {
    chat.kind == "group" || chat.kind == "supergroup"
  }

  /** `cmd_poll_delete`. Outside a group or supergroup it only sends the fixed notice.
      Inside one it starts the vote and registers the new poll for the chat; `sentPollId`
      is the id of the poll the platform created, or None when `answer_poll` raised (the
      exception then leaves the handler and nothing is registered). */
  method CmdPollDelete(reg: PollRegistry, chat: Chat, sentPollId: Option<string>, fault: WriteFault)
    returns (calls: seq<BotCall>)
    modifies reg
    ensures !IsGroupChat(chat) ==>
      calls == [Answer(chat.id, GroupOnlyNotice)] && reg.file == old(reg.file) && reg.writes == old(reg.writes)
    ensures IsGroupChat(chat) ==> calls == [DeletionPoll(chat.id)]
    ensures IsGroupChat(chat) && sentPollId.None? ==> reg.file == old(reg.file) && reg.writes == old(reg.writes)
    ensures IsGroupChat(chat) && sentPollId.Some? ==>
      reg.file == SavedFile(old(reg.file), sentPollId.value, chat.id, fault)
      && reg.writes == old(reg.writes) + [old(reg.Polls())[sentPollId.value := chat.id]]
  {
    if !IsGroupChat(chat) {
      calls := [Answer(chat.id, GroupOnlyNotice)];
      return;
    }
    calls := [DeletionPoll(chat.id)];
    if sentPollId.None? {
      return;
    }
    reg.SavePoll(sentPollId.value, chat.id, fault);
  }

  /** The vote count of `choice` in `{option.text: option.voter_count for option in options}`,
      0 when no option has that choice. When two options share a choice, the later one wins,
      as in a dict comprehension. */
  function Tally(options: seq<PollOption>, choice: string): nat {
    if options == [] then 0
    else if options[|options| - 1].text == choice then options[|options| - 1].voterCount
    else Tally(options[..|options| - 1], choice)
  }

  /** A choice no option carries counts 0; a choice exactly one option carries counts its votes. */
  lemma {:induction false} TallyOfLabel(options: seq<PollOption>, choice: string, i: nat)
    ensures (forall j :: 0 <= j < |options| ==> options[j].text != choice) ==> Tally(options, choice) == 0
    ensures i < |options| && options[i].text == choice
            && (forall j :: 0 <= j < |options| && j != i ==> options[j].text != choice)
            ==> Tally(options, choice) == options[i].voterCount
  {
    if options != [] {
      var init := options[..|options| - 1];
      TallyOfLabel(init, choice, i);
      if i < |init| {
        assert forall j :: 0 <= j < |init| && j != i ==> init[j] == options[j];
      }
    }
  }

  /** The announcement header: the two counts. */
  function ResultHeader(yes: nat, no: nat): string {
    "📊 <b>Deletion Poll Results:</b>\n\n" + "✅ Yes: " + NatToString(yes) + "\n"
    + "❌ No: " + NatToString(no) + "\n\n"
  }

  /** The results message of a closed vote, sent with HTML parse mode; its text is
      `AnnouncementText`. */
  datatype Announcement = Announcement(yes: nat, no: nat)

  /** The text of the results message: the counts, then the leaving line on a strict Yes
      majority and the staying line otherwise. */
  function AnnouncementText(a: Announcement): string {
    if a.yes > a.no then LeaveText(a.yes, a.no) else StayText(a.yes, a.no)
  }

  const LeaveLine := "The majority voted <b>Yes</b>. I will now leave the group. Goodbye! 👋"
  const StayLine := "The majority voted <b>No</b>. I'm staying! 😊"

  function LeaveText(yes: nat, no: nat): string {
    ResultHeader(yes, no) + LeaveLine
  }

  function StayText(yes: nat, no: nat): string {
    ResultHeader(yes, no) + StayLine
  }

  /** Both results messages open with the header that reports the two counts. */
  lemma AnnouncementReportsCounts(a: Announcement)
    ensures ResultHeader(a.yes, a.no) <= AnnouncementText(a)
  {
    if a.yes > a.no {
      PrefixOfAppend(ResultHeader(a.yes, a.no), LeaveLine);
    } else {
      PrefixOfAppend(ResultHeader(a.yes, a.no), StayLine);
    }
  }

  lemma PrefixOfAppend<T>(a: seq<T>, b: seq<T>)
    ensures a <= a + b
  {
  }

  /** `polls.get(poll.id)` followed by `if not chat_id: return`: a missing entry and an entry
      whose chat id is 0 both leave the callback without a chat. */
  function TargetChat(polls: map<string, int>, pollId: string): Option<int> {
    if pollId in polls && polls[pollId] != 0 then Some(polls[pollId]) else None
  }

  /** The calls made for a closed, registered poll. On a strict Yes majority the leave is
      attempted after the announcement in the same `try`, so it is not attempted when
      sending the announcement raises (`sendFails`). A failing leave is only logged. */
  function ClosureCalls(chatId: int, yes: nat, no: nat, sendFails: bool): seq<BotCall> {
    if yes > no then
      [SendMessage(chatId, Announcement(yes, no))] + (if sendFails then [] else [LeaveChat(chatId)])
    else
      [SendMessage(chatId, Announcement(yes, no))]
  }

  /** What one poll-state callback does to the platform and whether it evicts its entry. */
  datatype Reaction = Reaction(calls: seq<BotCall>, evict: bool)

  function React(polls: map<string, int>, poll: PollSnapshot, sendFails: bool): Reaction {
    if !poll.isClosed then Reaction([], false)
    else
      match TargetChat(polls, poll.id)
      case None => Reaction([], false)
      case Some(chatId) =>
        Reaction(ClosureCalls(chatId, Tally(poll.options, "Yes"), Tally(poll.options, "No"), sendFails), true)
  }

  /** The registry file and the platform calls after one callback. */
  datatype StepResult = StepResult(file: RegistryFile, calls: seq<BotCall>)

  function UpdateStep(file: RegistryFile, poll: PollSnapshot, sendFails: bool, fault: WriteFault): StepResult {
    var r := React(LoadPolls(file), poll, sendFails);
    StepResult(if r.evict then RemovedFile(file, poll.id, fault) else file, r.calls)
  }

  /** `handle_poll_update`: ignore an open poll, look the chat up, tally, announce (and leave
      on a strict Yes majority), then evict the entry with `remove_poll`, which re-reads the
      file. `sendFails` says whether `send_message` raises; `fault` is the eviction's write. */
  method HandlePollUpdate(reg: PollRegistry, poll: PollSnapshot, sendFails: bool, fault: WriteFault)
    returns (calls: seq<BotCall>)
    modifies reg
    ensures calls == UpdateStep(old(reg.file), poll, sendFails, fault).calls
    ensures reg.file == UpdateStep(old(reg.file), poll, sendFails, fault).file
    ensures reg.writes == old(reg.writes) +
      if React(LoadPolls(old(reg.file)), poll, sendFails).evict then [LoadPolls(old(reg.file)) - {poll.id}] else []
  {
    calls := [];
    if !poll.isClosed {
      return;
    }
    var polls := LoadPolls(reg.file);
    var chatId := if poll.id in polls then polls[poll.id] else 0;
    if chatId == 0 {
      return;
    }
    assert TargetChat(polls, poll.id) == Some(chatId);
    var yes := Tally(poll.options, "Yes");
    var no := Tally(poll.options, "No");
    if yes > no {
      calls := calls + [SendMessage(chatId, Announcement(yes, no))];
      if !sendFails {
        calls := calls + [LeaveChat(chatId)];
      }
    } else {
      calls := calls + [SendMessage(chatId, Announcement(yes, no))];
    }
    assert calls == ClosureCalls(chatId, yes, no, sendFails);
    reg.RemovePoll(poll.id, fault);
  }

  /** A callback for a poll that is still open changes nothing and calls nothing. */
  lemma OpenPollIgnored(file: RegistryFile, poll: PollSnapshot, sendFails: bool, fault: WriteFault)
    requires !poll.isClosed
    ensures UpdateStep(file, poll, sendFails, fault) == StepResult(file, [])
  {
  }

  /** A closed poll that is not registered, or registered with chat id 0, is a no-op and is
      not evicted: an entry with chat id 0 stays in the registry for good. */
  lemma UnknownPollIgnored(file: RegistryFile, poll: PollSnapshot, sendFails: bool, fault: WriteFault)
    requires poll.id !in LoadPolls(file) || LoadPolls(file)[poll.id] == 0
    ensures UpdateStep(file, poll, sendFails, fault) == StepResult(file, [])
  {
  }

  /** The bot leaves a chat exactly when the closed poll registered for that chat has
      strictly more Yes than No votes and the announcement went out; missing labels count 0. */
  lemma LeaveIffStrictMajority(file: RegistryFile, poll: PollSnapshot, sendFails: bool, fault: WriteFault, chatId: int)
    ensures LeaveChat(chatId) in UpdateStep(file, poll, sendFails, fault).calls <==>
      poll.isClosed && TargetChat(LoadPolls(file), poll.id) == Some(chatId)
      && Tally(poll.options, "Yes") > Tally(poll.options, "No") && !sendFails
  {
    var calls := UpdateStep(file, poll, sendFails, fault).calls;
    if poll.isClosed && TargetChat(LoadPolls(file), poll.id).Some? {
      var c := TargetChat(LoadPolls(file), poll.id).value;
      var yes, no := Tally(poll.options, "Yes"), Tally(poll.options, "No");
      assert calls == ClosureCalls(c, yes, no, sendFails);
      if yes > no && !sendFails {
        assert calls == [SendMessage(c, Announcement(yes, no)), LeaveChat(c)];
      } else if yes > no {
        assert calls == [SendMessage(c, Announcement(yes, no))];
      }
    }
  }

  /** At most one announcement and at most one leave per callback: a callback makes at most
      two calls, only the first can be an announcement and only the second a leave. */
  lemma AtMostOneAnnouncementAndLeave(file: RegistryFile, poll: PollSnapshot, sendFails: bool, fault: WriteFault)
    ensures var calls := UpdateStep(file, poll, sendFails, fault).calls;
      |calls| <= 2
      && (forall i :: 0 <= i < |calls| && calls[i].SendMessage? ==> i == 0)
      && (forall i :: 0 <= i < |calls| && calls[i].LeaveChat? ==> i == 1)
  {
  }

  /** A leave is always the second call, right after the announcement to the same chat. */
  lemma AnnounceBeforeLeave(file: RegistryFile, poll: PollSnapshot, sendFails: bool, fault: WriteFault, i: nat)
    requires i < |UpdateStep(file, poll, sendFails, fault).calls|
    requires UpdateStep(file, poll, sendFails, fault).calls[i].LeaveChat?
    ensures |UpdateStep(file, poll, sendFails, fault).calls| == 2 && i == 1
    ensures var calls := UpdateStep(file, poll, sendFails, fault).calls;
      calls[0] == SendMessage(calls[1].chatId, Announcement(Tally(poll.options, "Yes"), Tally(poll.options, "No")))
      && calls[0].announcement.yes > calls[0].announcement.no
  {
  }

  /** Equal counts stay: 3 Yes against 3 No sends the "staying" announcement and no leave. */
  lemma TieStays(file: RegistryFile, pollId: string, chatId: int, sendFails: bool, fault: WriteFault)
    requires TargetChat(LoadPolls(file), pollId) == Some(chatId)
    ensures UpdateStep(file, PollSnapshot(pollId, true, [PollOption("Yes", 3), PollOption("No", 3)]), sendFails, fault).calls
            == [SendMessage(chatId, Announcement(3, 3))]
  {
  }

  /** 5 Yes against 2 No announces the result and then leaves, exactly once. */
  lemma MajorityLeaves(file: RegistryFile, pollId: string, chatId: int, fault: WriteFault)
    requires TargetChat(LoadPolls(file), pollId) == Some(chatId)
    ensures UpdateStep(file, PollSnapshot(pollId, true, [PollOption("Yes", 5), PollOption("No", 2)]), false, fault).calls
            == [SendMessage(chatId, Announcement(5, 2)), LeaveChat(chatId)]
  {
    var options := [PollOption("Yes", 5), PollOption("No", 2)];
    assert Tally(options, "Yes") == 5 by {
      assert options[..1] == [PollOption("Yes", 5)];
    }
  }

  /** A closed, registered poll is evicted on both branches, whether or not the send failed;
      with a successful write every other entry is kept. */
  lemma ClosedKnownPollEvicted(file: RegistryFile, poll: PollSnapshot, sendFails: bool)
    requires poll.isClosed && TargetChat(LoadPolls(file), poll.id).Some?
    ensures LoadPolls(UpdateStep(file, poll, sendFails, NoFault).file) == LoadPolls(file) - {poll.id}
    ensures poll.id !in LoadPolls(UpdateStep(file, poll, sendFails, NoFault).file)
  {
  }

  /** Replaying a callback after it has been processed, with the eviction written, is a
      no-op: no call and no registry change. */
  lemma {:induction false} ReplayIsNoop(file: RegistryFile, poll: PollSnapshot, sendFails: bool, sendFailsAgain: bool, fault: WriteFault)
    ensures var first := UpdateStep(file, poll, sendFails, NoFault);
      UpdateStep(first.file, poll, sendFailsAgain, fault) == StepResult(first.file, [])
  {
    var first := UpdateStep(file, poll, sendFails, NoFault);
    if React(LoadPolls(file), poll, sendFails).evict {
      assert poll.id !in LoadPolls(first.file);
    } else {
      assert first.file == file;
      assert !poll.isClosed || TargetChat(LoadPolls(file), poll.id).None?;
    }
  }

  /** When the eviction's `open` fails, the error is swallowed and the entry stays, so a
      replayed closure announces (and leaves) a second time. */
  lemma FailedEvictionRepeats(file: RegistryFile, poll: PollSnapshot, sendFails: bool)
    requires poll.isClosed && TargetChat(LoadPolls(file), poll.id).Some?
    ensures var first := UpdateStep(file, poll, sendFails, OpenFails);
      first.file == file && UpdateStep(first.file, poll, sendFails, NoFault).calls == first.calls
  {
  }

  /** Start a vote in a group from an empty registry, read the registry back from disk (a
      restart), then close the poll with one Yes and no No: the entry resolves to the chat,
      the bot announces and leaves once, and the registry ends empty. */
  lemma VoteToLeaveScenario(onDisk: RegistryFile, pollId: string, chat: Chat)
    requires LoadPolls(onDisk) == map[]
    requires IsGroupChat(chat) && chat.id != 0
    ensures var saved := SavedFile(onDisk, pollId, chat.id, NoFault);
      var closed := PollSnapshot(pollId, true, [PollOption("Yes", 1), PollOption("No", 0)]);
      LoadPolls(saved) == map[pollId := chat.id]
      && UpdateStep(saved, closed, false, NoFault)
         == StepResult(Stored(map[]), [SendMessage(chat.id, Announcement(1, 0)), LeaveChat(chat.id)])
  {
    var options := [PollOption("Yes", 1), PollOption("No", 0)];
    assert Tally(options, "Yes") == 1 by {
      assert options[..1] == [PollOption("Yes", 1)];
    }
    assert map[pollId := chat.id] - {pollId} == map[];
  }
}
