/** The tactical scout panel: a transcript, the text field and a loading
    flag. Sending is split at its one suspension point into BeginSend (guard,
    append the user bubble, clear the field, set loading) and CompleteSend
    (append one model bubble from the provider's outcome, clear loading). */
module Assistant {
  import opened Types
  import opened Text

  /** What the provider call produced: a response whose text field may be
      absent, or a thrown error of any kind. */
  datatype Outcome = Replied(text: Option<string>) | Failed

  const ScoutingFailed: string := "Tactical scouting failed."
  const ConnectionLost: string := "Connection to command lost."

  /** The text of the model bubble for an outcome: the response text when it
      is present and non-empty, otherwise a fixed placeholder; a failure
      gives the fixed connection message. Never an empty bubble. */
  function ReplyText(outcome: Outcome): (r: string)
    ensures r != []
    ensures outcome.Replied? && outcome.text.Some? && outcome.text.value != [] ==> r == outcome.text.value
    ensures outcome.Replied? && (outcome.text.None? || outcome.text.value == []) ==> r == ScoutingFailed
    ensures outcome.Failed? ==> r == ConnectionLost
  {
    match outcome
    case Replied(text) => if text.Some? && text.value != [] then text.value else ScoutingFailed
    case Failed => ConnectionLost
  }

  /** The panel's state as a value. */
  datatype ChatState = ChatState(messages: seq<ChatMessage>, input: string, isLoading: bool)

  /** How many bubbles in `msgs` have role `role`. */
  function Count(msgs: seq<ChatMessage>, role: Role): nat
    decreases |msgs|
  {
    if msgs == [] then 0
    else Count(msgs[..|msgs| - 1], role) + (if msgs[|msgs| - 1].role == role then 1 else 0)
  }

  /** Whose bubble comes at position `i` of an alternating transcript. */
  function RoleAt(i: nat): Role {
    if i % 2 == 0 then User else Model
  }

  /** User and model bubbles alternate, starting with a user bubble. */
  predicate Alternates(msgs: seq<ChatMessage>) {
    forall i :: 0 <= i < |msgs| ==> msgs[i].role == RoleAt(i)
  }

  /** A bubble is never empty, and a user bubble is already trimmed. */
  predicate BubbleOk(m: ChatMessage) {
    m.text != [] && (m.role == User ==> IsTrimmed(m.text))
  }

  /** The transcript invariant: bubbles alternate, an unanswered user bubble
      is last exactly while loading, and every bubble is well-formed. */
  predicate WellFormed(s: ChatState) {
    Alternates(s.messages)
    && (RoleAt(|s.messages|) == Model <==> s.isLoading)
    && forall i :: 0 <= i < |s.messages| ==> BubbleOk(s.messages[i])
  }

  /** The first half of a send, up to the provider call. Returns the new
      state and the prompt handed to the provider, if any. */
  function Begin(s: ChatState): (r: (ChatState, Option<string>))
    ensures r.1.Some? <==> !s.isLoading && !IsBlank(s.input)
    ensures r.1.None? ==> r.0 == s
    ensures r.1.Some? ==> (r.1.value == Trim(s.input) && r.1.value != []
                           && r.0 == ChatState(s.messages + [ChatMessage(User, r.1.value)], "", true))
  {
    var userMsg := Trim(s.input);
    if userMsg == [] || s.isLoading then (s, None)
    else (ChatState(s.messages + [ChatMessage(User, userMsg)], "", true), Some(userMsg))
  }

  /** The second half of a send, after the provider call settles. */
  function Complete(s: ChatState, outcome: Outcome): (r: ChatState)
    ensures r.messages == s.messages + [ChatMessage(Model, ReplyText(outcome))]
    ensures r.messages[|s.messages|].text != []
    ensures r.input == s.input && !r.isLoading
  {
    ChatState(s.messages + [ChatMessage(Model, ReplyText(outcome))], s.input, false)
  }

  /** Appending a well-formed bubble of the role whose turn it is keeps the
      transcript well-formed. */
  lemma AppendKeepsWellFormed(s: ChatState, m: ChatMessage, input: string)
    requires WellFormed(s) && BubbleOk(m)
    requires m.role == RoleAt(|s.messages|)
    ensures WellFormed(ChatState(s.messages + [m], input, !s.isLoading))
  {
    var msgs, n := s.messages + [m], |s.messages|;
    assert forall i :: 0 <= i < n ==> msgs[i] == s.messages[i];
    assert msgs[n] == m;
    assert RoleAt(n + 1) != RoleAt(n);
  }

  lemma BeginPreservesWellFormed(s: ChatState)
    requires WellFormed(s)
    ensures WellFormed(Begin(s).0)
  {
    var (t, prompt) := Begin(s);
    if prompt.Some? {
      AppendKeepsWellFormed(s, ChatMessage(User, prompt.value), "");
    }
  }

  lemma CompletePreservesWellFormed(s: ChatState, outcome: Outcome)
    requires WellFormed(s) && s.isLoading
    ensures WellFormed(Complete(s, outcome))
  {
    AppendKeepsWellFormed(s, ChatMessage(Model, ReplyText(outcome)), s.input);
  }

  /** In an alternating transcript the user bubbles outnumber the model
      bubbles by one exactly when its length is odd. */
  lemma {:induction false} AlternatingCounts(msgs: seq<ChatMessage>)
    requires Alternates(msgs)
    ensures Count(msgs, User) == Count(msgs, Model) + (if RoleAt(|msgs|) == Model then 1 else 0)
    decreases |msgs|
  {
    if msgs != [] {
      var front := msgs[..|msgs| - 1];
      assert Alternates(front) by {
        forall i | 0 <= i < |front| ensures front[i].role == RoleAt(i) {
          assert front[i] == msgs[i];
        }
      }
      AlternatingCounts(front);
    }
  }

  /** Single flight: in a well-formed state at most one request is
      outstanding (a user bubble without its answer), and one is exactly
      while loading; a send attempted then issues no second request. */
  lemma SingleFlight(s: ChatState)
    requires WellFormed(s)
    ensures Count(s.messages, User) == Count(s.messages, Model) + (if s.isLoading then 1 else 0)
    ensures s.isLoading ==> Begin(s) == (s, None)
  {
    AlternatingCounts(s.messages);
  }

  /** A rejected send changes nothing and issues no request. */
  lemma RejectedSendIsNoOp(s: ChatState)
    requires s.isLoading || IsBlank(s.input)
    ensures Begin(s) == (s, None)
  {
  }

  /** A whole accepted send appends exactly a user bubble with the trimmed
      input and then one model bubble; the field ends empty and loading ends
      cleared, with the transcript invariant kept. */
  lemma AcceptedSendCycle(s: ChatState, outcome: Outcome)
    requires WellFormed(s) && !s.isLoading && !IsBlank(s.input)
    ensures var t := Complete(Begin(s).0, outcome);
      t.messages == s.messages + [ChatMessage(User, Trim(s.input)), ChatMessage(Model, ReplyText(outcome))]
      && t.input == "" && !t.isLoading && WellFormed(t)
  {
    var u := Begin(s).0;
    assert u.messages == s.messages + [ChatMessage(User, Trim(s.input))];
    BeginPreservesWellFormed(s);
    CompletePreservesWellFormed(u, outcome);
  }

  /** The assistant panel's component state. */
  class AssistantModal {
    var messages: seq<ChatMessage>
    var input: string
    var isLoading: bool

    function State(): ChatState
      reads this
    {
      ChatState(messages, input, isLoading)
    }

    ghost predicate Valid()
      reads this
    {
      WellFormed(State())
    }

    /** A freshly opened panel: empty transcript, empty field, not loading. */
    constructor ()
      ensures Valid()
      ensures messages == [] && input == "" && !isLoading
    {
      messages := [];
      input := "";
      isLoading := false;
    }

    /** Typing in the field replaces its text; the field stays editable while
        a request is in flight. */
    method SetInput(value: string)
      requires Valid()
      modifies this
      ensures Valid()
      ensures State() == old(State()).(input := value)
    {
      input := value;
    }

    /** Send, up to the provider call. */
    method BeginSend() returns (prompt: Option<string>)
      requires Valid()
      modifies this
      ensures Valid()
      ensures (State(), prompt) == Begin(old(State()))
    {
      BeginPreservesWellFormed(State());
      var userMsg := Trim(input);
      if userMsg == [] || isLoading {
        return None;
      }
      messages := messages + [ChatMessage(User, userMsg)];
      input := "";
      isLoading := true;
      prompt := Some(userMsg);
    }

    /** Send, after the provider call settles; runs only while the request
        that BeginSend started is outstanding. */
    method CompleteSend(outcome: Outcome)
      requires Valid() && isLoading
      modifies this
      ensures Valid()
      ensures State() == Complete(old(State()), outcome)
      ensures messages == old(messages) + [ChatMessage(Model, ReplyText(outcome))]
      ensures input == old(input) && !isLoading
    {
      CompletePreservesWellFormed(State(), outcome);
      match outcome {
        case Replied(text) =>
          var aiText := if text.Some? && text.value != [] then text.value else ScoutingFailed;
          messages := messages + [ChatMessage(Model, aiText)];
        case Failed =>
          messages := messages + [ChatMessage(Model, ConnectionLost)];
      }
      isLoading := false;
    }
  }
}
