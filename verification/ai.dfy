/** The keyword-driven stand-in for an AI assistant in the user backend
    (user_backend/app/api/v1/core/endpoints/ai.py): turning a project
    description into tokens and a name, and answering a chat message.
    Timestamps and the fixed confidence and reasoning texts are not part of
    this model. */
module Ai {
  import opened Wrappers
  import opened Text
  import opened Seqs

  /** The project types; only the default is named here, the enum itself
      (models.py) is not part of this model. */
  datatype ProjectType = WebApp | OtherType(name: string)

  datatype Suggestion = Suggestion(name: string, description: string, tokens: set<string>, projectType: ProjectType)

  // ----- create_project_from_description -----

  /** The tokens the lower-cased description calls for. Python returns
      `list(set(...))`, so the order is not fixed and only the set is modelled. */
  function SuggestedTokens(description: string): (ts: set<string>)
    ensures var d := Lower(description);
      && ({"l", "r", "o"} <= ts <==> Contains(d, "login") || Contains(d, "auth"))
      && ({"m", "u"} <= ts <==> Contains(d, "user") || Contains(d, "profile"))
      && ({"s", "t"} <= ts <==> Contains(d, "session"))
      && ("a" in ts <==> Contains(d, "admin"))
    ensures var d := Lower(description);
      && (forall t :: t in {"l", "r", "o"} ==> (t in ts <==> Contains(d, "login") || Contains(d, "auth")))
      && (forall t :: t in {"m", "u"} ==> (t in ts <==> Contains(d, "user") || Contains(d, "profile")))
      && (forall t :: t in {"s", "t"} ==> (t in ts <==> Contains(d, "session")))
    ensures ts <= {"l", "r", "o", "m", "u", "s", "t", "a"}
  {
    var d := Lower(description);
    (if Contains(d, "login") || Contains(d, "auth") then {"l", "r", "o"} else {})
    + (if Contains(d, "user") || Contains(d, "profile") then {"m", "u"} else {})
    + (if Contains(d, "session") then {"s", "t"} else {})
    + (if Contains(d, "admin") then {"a"} else {})
  }

  /** The first three words of the description. */
  function LeadingWords(description: string): (ws: seq<string>)
    ensures |ws| <= 3 && |ws| <= |Words(description)|
    ensures ws == Words(description)[..|ws|]
    ensures |ws| < 3 ==> ws == Words(description)
  {
    var all := Words(description);
    if |all| <= 3 then all else all[..3]
  }

  /** `[w.capitalize() for w in ws]` */
  function CapitalizeAll(ws: seq<string>): (r: seq<string>)
    ensures |r| == |ws|
    ensures forall i :: 0 <= i < |ws| ==> r[i] == Capitalize(ws[i])
  {
    seq(|ws|, i requires 0 <= i < |ws| => Capitalize(ws[i]))
  }

  /** The suggested name: the first three words, capitalised and joined by
      spaces, then " App". */
  function SuggestedName(description: string): (n: string)
    ensures EndsWith(n, " App")
    ensures Words(n[..|n| - 4]) == CapitalizeAll(LeadingWords(description))
  {
    var ws := CapitalizeAll(LeadingWords(description));
    CapitalizedWords(LeadingWords(description));
    WordsOfJoin(ws);
    var n := Join(ws, " ") + " App";
    assert n[..|n| - 4] == Join(ws, " ");
    n
  }

  /** Capitalising keeps a word a word. */
  lemma CapitalizedWords(ws: seq<string>)
    requires forall i :: 0 <= i < |ws| ==> |ws[i]| > 0 && NoSpace(ws[i])
    ensures forall i :: 0 <= i < |ws| ==> |CapitalizeAll(ws)[i]| > 0 && NoSpace(CapitalizeAll(ws)[i])
  {
  }

  /** `create_project_from_description`: the keyword tokens and the name
      of the description, the description itself, and the requested type or
      the web-app default. */
  function FromDescription(description: string, projectType: Option<ProjectType>): (s: Suggestion)
    ensures s.description == description
    ensures s.tokens == SuggestedTokens(description)
    ensures s.name == SuggestedName(description)
    ensures s.tokens <= {"l", "r", "o", "m", "u", "s", "t", "a"}
    ensures projectType.None? ==> s.projectType == WebApp
    ensures projectType.Some? ==> s.projectType == projectType.value
    ensures EndsWith(s.name, " App")
  {
    Suggestion(SuggestedName(description), description, SuggestedTokens(description),
               if projectType.Some? then projectType.value else WebApp)
  }

  /** A description without words gives the bare " App". */
  lemma BlankName(description: string)
    requires forall i :: 0 <= i < |description| ==> IsSpace(description[i])
    ensures SuggestedName(description) == " App"
  {
    WordsOfSpaces(description);
  }

  // ----- ai_chat -----

  datatype Message = Message(role: string, content: string, suggestedTokens: seq<string>)

  datatype Conversation = Conversation(userId: int, projectId: Option<int>, messages: seq<Message>)

  datatype ChatResponse = ChatResponse(response: string, suggestions: seq<string>, suggestedTokens: seq<string>,
                                       conversationId: int)

  /** The tokens a chat message calls for. */
  function ChatTokens(message: string): (ts: seq<string>)
    ensures ts == ["l", "r"] <==> Contains(Lower(message), "login")
    ensures ts == [] <==> !Contains(Lower(message), "login")
  {
    if Contains(Lower(message), "login") then ["l", "r"] else []
  }

  /** The advice `ai_chat` closes its reply with when the message mentions
      logging in, and otherwise. */
  const LoginAdvice: string := "login (l) and register (r) for authentication."
  const OpenAdvice: string := "Let me know more about your specific needs!"

  /** The fixed sentence between the echo and the advice. */
  const TokensIntro: string := "Based on your requirements, I suggest using these tokens: "

  /** `ai_chat`'s reply: it echoes the lower-cased message, continues with
      `TokensIntro`, and closes with the login advice exactly when the
      lower-cased message mentions "login"; nothing else is in it. */
  function ChatReply(message: string): (reply: string)
    ensures StartsWith(reply, "I understand you want to " + Lower(message) + ". ")
    ensures EndsWith(reply, LoginAdvice) <==> Contains(Lower(message), "login")
    ensures EndsWith(reply, OpenAdvice) <==> !Contains(Lower(message), "login")
    ensures var head := "I understand you want to " + Lower(message) + ". ";
            var advice := if Contains(Lower(message), "login") then LoginAdvice else OpenAdvice;
            && |reply| == |head| + |TokensIntro| + |advice|
            && reply[|head|..|head| + |TokensIntro|] == TokensIntro
  {
    var head := "I understand you want to " + Lower(message) + ". ";
    var body := head + TokensIntro;
    var advice := if Contains(Lower(message), "login") then LoginAdvice else OpenAdvice;
    var reply := body + advice;
    ThreePieces(head, TokensIntro, advice);
    AdviceDiffers(reply);
    reply
  }

  /** Where the three pieces of a reply sit in it. */
  lemma ThreePieces(head: string, mid: string, tail: string)
    ensures var r := head + mid + tail;
            && |r| == |head| + |mid| + |tail|
            && StartsWith(r, head) && r[|head|..|head| + |mid|] == mid && EndsWith(r, tail)
  {
    var r := head + mid + tail;
    assert r[..|head|] == head;
    assert r[|head|..|head| + |mid|] == mid;
    assert r[|r| - |tail|..] == tail;
  }

  /** No reply ends with both pieces of advice: one ends in '.', the other in '!'. */
  lemma AdviceDiffers(reply: string)
    ensures !(EndsWith(reply, LoginAdvice) && EndsWith(reply, OpenAdvice))
  {
    if EndsWith(reply, LoginAdvice) {
      assert reply[|reply| - 1] == LoginAdvice[|LoginAdvice| - 1] == '.';
    }
  }

  const FollowUps: seq<string> := ["Tell me about user authentication", "What database features do you need?"]

  /** `ai_chat`: a missing or zero conversation id opens a new conversation
      under `newId` (the database's next key); an unknown id is a 404. The
      user's message and then the reply are appended to the conversation. */
  function Chat(conversations: map<int, Conversation>, userId: int, message: string, conversationId: Option<int>,
                projectId: Option<int>, newId: int): (r: Result<(ChatResponse, map<int, Conversation>), HttpError>)
    requires newId !in conversations
    ensures r.Err? <==> conversationId.Some? && conversationId.value != 0 && conversationId.value !in conversations
    ensures r.Err? ==> r.error == HttpError(404, "Conversation not found")
    ensures r.Ok? ==>
              var (resp, after) := r.value;
              var id := resp.conversationId;
              var before := if id in conversations then conversations[id].messages else [];
              && (conversationId.None? || conversationId.value == 0 ==> id == newId)
              && (conversationId.Some? && conversationId.value != 0 ==> id == conversationId.value)
              && after.Keys == conversations.Keys + {id}
              && after[id].userId == (if id in conversations then conversations[id].userId else userId)
              && after[id].messages == before + [Message("user", message, []),
                                                 Message("assistant", resp.response, resp.suggestedTokens)]
              && (forall c :: c in conversations && c != id ==> after[c] == conversations[c])
              && resp.response == ChatReply(message)
              && resp.suggestedTokens == ChatTokens(message)
              && resp.suggestions == FollowUps
  {
    var target: Option<(int, Conversation)> :=
      if conversationId.None? || conversationId.value == 0 then Some((newId, Conversation(userId, projectId, [])))
      else if conversationId.value in conversations then Some((conversationId.value, conversations[conversationId.value]))
      else None;
    match target
    case None => Err(HttpError(404, "Conversation not found"))
    case Some((id, conv)) =>
      var reply := ChatReply(message);
      var tokens := ChatTokens(message);
      var conv' := conv.(messages := conv.messages + [Message("user", message, []), Message("assistant", reply, tokens)]);
      Ok((ChatResponse(reply, FollowUps, tokens, id), conversations[id := conv']))
  }

  /** Chatting about logging in always suggests login and register, in that
      order, and the reply closes with the login advice. */
  lemma ChatLogin(conversations: map<int, Conversation>, userId: int, message: string, projectId: Option<int>, newId: int)
    requires newId !in conversations
    requires Contains(Lower(message), "login")
    ensures Chat(conversations, userId, message, None, projectId, newId).Ok?
    ensures Chat(conversations, userId, message, None, projectId, newId).value.0.suggestedTokens == ["l", "r"]
    ensures EndsWith(Chat(conversations, userId, message, None, projectId, newId).value.0.response, LoginAdvice)
  {
  }
}
