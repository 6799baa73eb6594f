/**
 * The message handler: which action a room message leads to, and how the
 * admin's commands change the keyword table. The chat client's effects
 * are returned as a list of actions; the database's and the provider's
 * answers come in through an `Environment`.
 */
module Pipeline {
  import opened Wrappers
  import opened GoStrings
  import opened Unicode
  import opened Normalize
  import opened Filter
  import opened Keywords
  import opened Translate

  /** `event.MsgText`. */
  const MsgText: string := "m.text"

  const AddPrefix: string := "!add "
  const RemovePrefix: string := "!remove "

  const AddedNotice: string := "Added filter keyword: "
  const RemovedNotice: string := "Removed filter keyword: "
  /** "Only text messages can be translated". */
  const TextOnlyNotice: string := "ניתן לתרגם רק הודעות טקסט"
  /** "Your message was blocked because it contains the phrase: ". */
  const BlockedNotice: string := "ההודעה שלך נחסמה מכיוון שהיא מכילה את הביטוי: "
  /** "Error during translation". */
  const TranslationErrorNotice: string := "שגיאה במהלך התרגום"

  /** A room message event, with its content already read as a message. */
  datatype Event = Event(sender: string, roomId: string, eventId: string, msgType: string, body: string)

  /** What the handler asks of the chat client. */
  datatype Action =
    | SendNotice(roomId: string, text: string)
    /** A text message threaded as a reply to `inReplyTo`. */
    | SendReply(roomId: string, text: string, inReplyTo: string)
    /** The handler panics (a failed type assertion on the provider's reply). */
    | Panic

  /**
   * What is fixed while the bot runs: its own user, the admin user, the
   * Unicode tables, the regular-expression engine and the instruction
   * text sent as the system prompt.
   */
  datatype Config = Config(botUser: string, adminUser: string, tables: Tables, regex: Regex, systemPrompt: string)

  /**
   * The answers of the outside world to one message: whether the
   * database refuses a write, whether reading the keywords fails, whether
   * a step error cuts the keyword scan short (and after how many rows),
   * and the translation provider.
   */
  datatype Environment = Environment(writeFails: bool, readFails: bool, readStopsAfter: Option<nat>, provider: Provider)

  /** The actions taken and the keyword table afterwards. */
  datatype Reaction = Reaction(actions: seq<Action>, keywords: set<string>)

  // ---------------------------------------------------------------------
  // Admin commands
  // ---------------------------------------------------------------------

  datatype Command = AddKeyword(keyword: string) | RemoveKeyword(keyword: string)

  /** A body read as a command: `!add ` is tried before `!remove `, the keyword is the rest of the body. */
  function ParseCommand(body: string): (r: Option<Command>)
    ensures r.None? <==> !HasPrefix(body, AddPrefix) && !HasPrefix(body, RemovePrefix)
    ensures r.Some? && r.value.AddKeyword? <==> HasPrefix(body, AddPrefix)
    ensures r.Some? ==> |r.value.keyword| < |body|
  {
    if HasPrefix(body, AddPrefix) then Some(AddKeyword(body[|AddPrefix|..]))
    else if HasPrefix(body, RemovePrefix) then Some(RemoveKeyword(body[|RemovePrefix|..]))
    else None
  }

  /** The body that issues a command. */
  function CommandText(c: Command): string {
    match c
    case AddKeyword(k) => AddPrefix + k
    case RemoveKeyword(k) => RemovePrefix + k
  }

  /** Every command is read back from its text. */
  lemma ParseCommandText(c: Command)
    ensures ParseCommand(CommandText(c)) == Some(c)
  {
    match c
    case AddKeyword(k) =>
      assert (AddPrefix + k)[..|AddPrefix|] == AddPrefix;
      assert (AddPrefix + k)[|AddPrefix|..] == k;
    case RemoveKeyword(k) =>
      assert (RemovePrefix + k)[..|RemovePrefix|] == RemovePrefix;
      assert (RemovePrefix + k)[|RemovePrefix|..] == k;
      assert !HasPrefix(RemovePrefix + k, AddPrefix) by {
        assert (RemovePrefix + k)[1] == 'r';
      }
  }

  /** Every body read as a command is the text of that command. */
  lemma CommandTextParse(body: string)
    requires ParseCommand(body).Some?
    ensures CommandText(ParseCommand(body).value) == body
  {
    if HasPrefix(body, AddPrefix) {
      assert body == body[..|AddPrefix|] + body[|AddPrefix|..];
    } else {
      assert body == body[..|RemovePrefix|] + body[|RemovePrefix|..];
    }
  }

  /** A command's effect; a refused write is logged only, so nothing is sent. */
  function ApplyCommand(c: Command, keywords: set<string>, writeFails: bool, roomId: string): (r: Reaction)
    ensures r.actions == [] <==> writeFails
    ensures |r.actions| <= 1
    ensures !writeFails ==>
              r.actions == [SendNotice(roomId, (if c.AddKeyword? then AddedNotice else RemovedNotice) + c.keyword)]
    ensures writeFails ==> r.keywords == keywords
    ensures !writeFails ==> (c.keyword in r.keywords <==> c.AddKeyword?)
    ensures forall x :: x != c.keyword ==> (x in r.keywords <==> x in keywords)
  {
    if writeFails then Reaction([], keywords)
    else match c
      case AddKeyword(k) => Reaction([SendNotice(roomId, AddedNotice + k)], keywords + {k})
      case RemoveKeyword(k) => Reaction([SendNotice(roomId, RemovedNotice + k)], keywords - {k})
  }

  // ---------------------------------------------------------------------
  // The handler
  // ---------------------------------------------------------------------

  /** The action for a translation outcome. */
  function TranslationActions(roomId: string, eventId: string, t: Translation): (r: seq<Action>)
    ensures |r| == 1
    ensures r[0].SendReply? <==> t.Translated?
    ensures r[0] == Panic <==> t.Panicked?
    ensures !r[0].Panic? ==> r[0].roomId == roomId
    ensures r[0].SendReply? ==> r[0].inReplyTo == eventId
  {
    match t
    case Translated(text) => [SendReply(roomId, text, eventId)]
    case Failed(_) => [SendNotice(roomId, TranslationErrorNotice)]
    case Panicked => [Panic]
  }

  /**
   * An ordinary message: filtered on its raw body against `listing`, the
   * keywords as the database lists them, and otherwise translated once
   * symbols and a signature are removed.
   */
  function Screen(cfg: Config, listing: seq<string>, evt: Event, env: Environment): (r: seq<Action>)
    ensures env.readFails <==> r == []
    ensures |r| <= 1
    ensures |r| == 1 && !r[0].Panic? ==> r[0].roomId == evt.roomId
    ensures |r| == 1 && r[0].SendReply? ==> r[0].inReplyTo == evt.eventId && !AnyMatches(cfg.regex, listing, evt.body)
  {
    if env.readFails then []
    else match FirstMatchIndex(cfg.regex, listing, evt.body)
      case Some(i) => [SendNotice(evt.roomId, BlockedNotice + listing[i])]
      case None =>
        TranslationActions(evt.roomId, evt.eventId,
                           TranslateText(env.provider, cfg.systemPrompt, Normalized(cfg.tables, evt.body)))
  }

  /** The bot's own messages, media, empty bodies, admin commands, and the rest, in that order. */
  function Respond(cfg: Config, keywords: set<string>, listing: seq<string>, evt: Event, env: Environment): (r: Reaction)
    ensures |r.actions| <= 1
    ensures r.keywords != keywords ==> evt.sender == cfg.adminUser && ParseCommand(evt.body).Some?
  {
    if evt.sender == cfg.botUser then Reaction([], keywords)
    else if evt.msgType != MsgText then Reaction([SendNotice(evt.roomId, TextOnlyNotice)], keywords)
    else if evt.body == "" then Reaction([], keywords)
    else if evt.sender == cfg.adminUser && ParseCommand(evt.body).Some? then
      ApplyCommand(ParseCommand(evt.body).value, keywords, env.writeFails, evt.roomId)
    else Reaction(Screen(cfg, listing, evt, env), keywords)
  }

  /** A message that reaches the filter: from another user, text, non-empty, not an admin command. */
  predicate Ordinary(cfg: Config, evt: Event) {
    evt.sender != cfg.botUser && evt.msgType == MsgText && evt.body != ""
    && !(evt.sender == cfg.adminUser && ParseCommand(evt.body).Some?)
  }

  /** Some stored keyword matches the raw body. */
  predicate Suppresses(re: Regex, keywords: set<string>, body: string) {
    exists k :: k in keywords && Matches(re, k, body)
  }

  /**
   * `handleMessage`. The keyword list the database returns is what some
   * scan of the table reads: all of it, or its first rows when a step error
   * cuts the scan short; the result is the one `Respond` gives for it.
   */
  method HandleMessage(cfg: Config, store: KeywordStore, evt: Event, env: Environment) returns (actions: seq<Action>)
    modifies store
    ensures exists listing :: IsRead(listing, old(store.keywords), env.readStopsAfter)
              && Respond(cfg, old(store.keywords), listing, evt, env) == Reaction(actions, store.keywords)
  {
    ghost var listing := ReadExists(store.keywords, env.readStopsAfter);
    actions := [];
    if evt.sender == cfg.botUser {
      return;
    }
    if evt.msgType != MsgText {
      actions := [SendNotice(evt.roomId, TextOnlyNotice)];
      return;
    }
    var text := evt.body;
    if text == "" {
      return;
    }
    if evt.sender == cfg.adminUser {
      if HasPrefix(text, AddPrefix) {
        var keyword := text[|AddPrefix|..];
        var ok := store.Add(keyword, env.writeFails);
        if ok {
          actions := [SendNotice(evt.roomId, AddedNotice + keyword)];
        }
        return;
      } else if HasPrefix(text, RemovePrefix) {
        var keyword := text[|RemovePrefix|..];
        var ok := store.Remove(keyword, env.writeFails);
        if ok {
          actions := [SendNotice(evt.roomId, RemovedNotice + keyword)];
        }
        return;
      }
    }
    var keywords := store.List(env.readFails, env.readStopsAfter);
    if keywords.None? {
      return;
    }
    listing := keywords.value;
    var shouldFilter, matchedKeyword := FirstMatch(cfg.regex, keywords.value, text);
    if shouldFilter {
      actions := [SendNotice(evt.roomId, BlockedNotice + matchedKeyword)];
      return;
    }
    var textWithoutEmojis := RemoveEmojis(cfg.tables, text);
    var textWithoutSignature := RemoveSignature(cfg.tables, textWithoutEmojis);
    var translated := TranslateText(env.provider, cfg.systemPrompt, textWithoutSignature);
    match translated
    case Translated(translatedText) =>
      actions := [SendReply(evt.roomId, translatedText, evt.eventId)];
    case Failed(_) =>
      actions := [SendNotice(evt.roomId, TranslationErrorNotice)];
    case Panicked =>
      actions := [Panic];
  }

  // ---------------------------------------------------------------------
  // Properties of the handler
  // ---------------------------------------------------------------------

  /** The bot's own messages are ignored. */
  lemma BotIsSilent(cfg: Config, keywords: set<string>, listing: seq<string>, evt: Event, env: Environment)
    requires evt.sender == cfg.botUser
    ensures Respond(cfg, keywords, listing, evt, env) == Reaction([], keywords)
  {
  }

  /** Any other user's non-text message gets only the "text only" notice. */
  lemma MediaGetsTextOnlyNotice(cfg: Config, keywords: set<string>, listing: seq<string>, evt: Event, env: Environment)
    requires evt.sender != cfg.botUser && evt.msgType != MsgText
    ensures Respond(cfg, keywords, listing, evt, env) == Reaction([SendNotice(evt.roomId, TextOnlyNotice)], keywords)
  {
  }

  /** An empty text message is ignored. */
  lemma EmptyBodyIsSilent(cfg: Config, keywords: set<string>, listing: seq<string>, evt: Event, env: Environment)
    requires evt.msgType == MsgText && evt.body == ""
    ensures Respond(cfg, keywords, listing, evt, env).actions == []
  {
  }

  /**
   * After `!add k` from the admin, `k` is stored and every other keyword
   * is as before, and the admin is told; a refused write changes nothing
   * and sends nothing.
   */
  lemma AddCommandStores(cfg: Config, keywords: set<string>, listing: seq<string>, evt: Event, env: Environment, k: string)
    requires evt.sender == cfg.adminUser && evt.sender != cfg.botUser && evt.msgType == MsgText
    requires evt.body == AddPrefix + k
    ensures var r := Respond(cfg, keywords, listing, evt, env);
            if env.writeFails then r == Reaction([], keywords)
            else k in r.keywords && (forall x :: x != k ==> (x in r.keywords <==> x in keywords))
                 && r.actions == [SendNotice(evt.roomId, AddedNotice + k)]
  {
    ParseCommandText(AddKeyword(k));
  }

  /**
   * After `!remove k` from the admin, `k` is not stored and every other
   * keyword is as before, and the admin is told; a refused write changes
   * nothing and sends nothing.
   */
  lemma RemoveCommandDeletes(cfg: Config, keywords: set<string>, listing: seq<string>, evt: Event, env: Environment, k: string)
    requires evt.sender == cfg.adminUser && evt.sender != cfg.botUser && evt.msgType == MsgText
    requires evt.body == RemovePrefix + k
    ensures var r := Respond(cfg, keywords, listing, evt, env);
            if env.writeFails then r == Reaction([], keywords)
            else k !in r.keywords && (forall x :: x != k ==> (x in r.keywords <==> x in keywords))
                 && r.actions == [SendNotice(evt.roomId, RemovedNotice + k)]
  {
    ParseCommandText(RemoveKeyword(k));
  }

  /** Issuing the same admin command twice leaves the table as issuing it once. */
  lemma CommandIdempotent(cfg: Config, keywords: set<string>, l1: seq<string>, l2: seq<string>, evt: Event, env: Environment)
    requires evt.sender == cfg.adminUser && ParseCommand(evt.body).Some?
    ensures var once := Respond(cfg, keywords, l1, evt, env).keywords;
            Respond(cfg, once, l2, evt, env).keywords == once
  {
  }

  /**
   * An admin command never reaches the keyword query, the filter or the
   * provider: its outcome does not depend on the listing, on the read
   * failing or on the provider.
   */
  lemma CommandsBypassFilter(cfg: Config, keywords: set<string>, l1: seq<string>, l2: seq<string>, evt: Event,
                             env1: Environment, env2: Environment)
    requires evt.sender == cfg.adminUser && ParseCommand(evt.body).Some?
    requires env1.writeFails == env2.writeFails
    ensures Respond(cfg, keywords, l1, evt, env1) == Respond(cfg, keywords, l2, evt, env2)
  {
  }

  /** Only an admin command changes the keyword table. */
  lemma OnlyAdminCommandsChangeKeywords(cfg: Config, keywords: set<string>, listing: seq<string>, evt: Event, env: Environment)
    requires Respond(cfg, keywords, listing, evt, env).keywords != keywords
    ensures evt.sender == cfg.adminUser && evt.sender != cfg.botUser && evt.msgType == MsgText
    ensures ParseCommand(evt.body).Some? && !env.writeFails
  {
  }

  /** Anyone else's `!add` or `!remove` is an ordinary text and goes to the filter and translation. */
  lemma OthersCommandsAreText(cfg: Config, evt: Event, c: Command)
    requires evt.sender != cfg.adminUser && evt.sender != cfg.botUser && evt.msgType == MsgText
    requires evt.body == CommandText(c)
    ensures Ordinary(cfg, evt)
  {
    ParseCommandText(c);
  }

  /** A keyword query that fails is logged only: an ordinary message then gets no action. */
  lemma ReadFailureIsSilent(cfg: Config, keywords: set<string>, listing: seq<string>, evt: Event, env: Environment)
    requires Ordinary(cfg, evt) && env.readFails
    ensures Respond(cfg, keywords, listing, evt, env) == Reaction([], keywords)
  {
  }

  /**
   * An ordinary message is suppressed exactly when some stored keyword
   * matches its raw body, whatever order the keywords are listed in; the
   * notice names the first matching keyword of the listing.
   */
  lemma SuppressedIffKeywordMatches(cfg: Config, keywords: set<string>, listing: seq<string>, evt: Event, env: Environment)
    requires Ordinary(cfg, evt) && !env.readFails && IsListing(listing, keywords)
    ensures var r := Respond(cfg, keywords, listing, evt, env);
            r.keywords == keywords
            && (Suppresses(cfg.regex, keywords, evt.body) <==> FirstMatchIndex(cfg.regex, listing, evt.body).Some?)
            && (Suppresses(cfg.regex, keywords, evt.body) ==>
                  var i := FirstMatchIndex(cfg.regex, listing, evt.body).value;
                  listing[i] in keywords && Matches(cfg.regex, listing[i], evt.body)
                  && r.actions == [SendNotice(evt.roomId, BlockedNotice + listing[i])])
  {
    SuppressedIffSomeMatch(cfg.regex, listing, evt.body);
    if Suppresses(cfg.regex, keywords, evt.body) {
      var k :| k in keywords && Matches(cfg.regex, k, evt.body);
      assert k in listing;
    }
  }

  /**
   * An ordinary message that no keyword matches is translated, and what is
   * translated is the body with its symbols and then its signature removed.
   */
  lemma UnsuppressedIsTranslated(cfg: Config, keywords: set<string>, listing: seq<string>, evt: Event, env: Environment)
    requires Ordinary(cfg, evt) && !env.readFails && IsListing(listing, keywords)
    requires !Suppresses(cfg.regex, keywords, evt.body)
    ensures Respond(cfg, keywords, listing, evt, env).actions
            == TranslationActions(evt.roomId, evt.eventId,
                                  TranslateText(env.provider, cfg.systemPrompt,
                                                StripSignature(cfg.tables, RemoveEmojis(cfg.tables, evt.body))))
  {
    SuppressedIffKeywordMatches(cfg, keywords, listing, evt, env);
  }

  /**
   * When the provider answers with a text block, the reply is that text,
   * threaded to the message it translates.
   */
  lemma ReplyIsThreaded(cfg: Config, keywords: set<string>, listing: seq<string>, evt: Event, env: Environment,
                        reply: string, rest: seq<Json>)
    requires Ordinary(cfg, evt) && !env.readFails && IsListing(listing, keywords)
    requires !Suppresses(cfg.regex, keywords, evt.body)
    requires var answer := env.provider(BuildRequest(cfg.systemPrompt, Normalized(cfg.tables, evt.body)));
             answer.Ok? && answer.value.content == [TextBlock(reply)] + rest
    ensures Respond(cfg, keywords, listing, evt, env).actions == [SendReply(evt.roomId, reply, evt.eventId)]
  {
    SuppressedIffKeywordMatches(cfg, keywords, listing, evt, env);
    TextReplyTranslates(env.provider, cfg.systemPrompt, Normalized(cfg.tables, evt.body), reply, rest);
  }

  /** A transport error or an empty reply gets the translation-error notice. */
  lemma FailedTranslationNotice(cfg: Config, keywords: set<string>, listing: seq<string>, evt: Event, env: Environment)
    requires Ordinary(cfg, evt) && !env.readFails && IsListing(listing, keywords)
    requires !Suppresses(cfg.regex, keywords, evt.body)
    requires var answer := env.provider(BuildRequest(cfg.systemPrompt, Normalized(cfg.tables, evt.body)));
             answer.Err? || answer.value.content == []
    ensures Respond(cfg, keywords, listing, evt, env).actions == [SendNotice(evt.roomId, TranslationErrorNotice)]
  {
    SuppressedIffKeywordMatches(cfg, keywords, listing, evt, env);
  }

  /** A reply whose first block is not a text block makes the handler panic. */
  lemma NonTextReplyPanics(cfg: Config, keywords: set<string>, listing: seq<string>, evt: Event, env: Environment)
    requires Ordinary(cfg, evt) && !env.readFails && IsListing(listing, keywords)
    requires !Suppresses(cfg.regex, keywords, evt.body)
    requires var answer := env.provider(BuildRequest(cfg.systemPrompt, Normalized(cfg.tables, evt.body)));
             answer.Ok? && FirstBlockText(answer.value.content).NotText?
    ensures Respond(cfg, keywords, listing, evt, env).actions == [Panic]
  {
    SuppressedIffKeywordMatches(cfg, keywords, listing, evt, env);
  }

  /**
   * A scan cut short still blocks only for a stored keyword that matches,
   * and names it.
   */
  lemma CutShortReadBlocksSoundly(cfg: Config, keywords: set<string>, listing: seq<string>, evt: Event, env: Environment)
    requires Ordinary(cfg, evt) && !env.readFails && IsPartialListing(listing, keywords)
    requires FirstMatchIndex(cfg.regex, listing, evt.body).Some?
    ensures var i := FirstMatchIndex(cfg.regex, listing, evt.body).value;
            Suppresses(cfg.regex, keywords, evt.body) && listing[i] in keywords
            && Respond(cfg, keywords, listing, evt, env) == Reaction([SendNotice(evt.roomId, BlockedNotice + listing[i])], keywords)
  {
    var i := FirstMatchIndex(cfg.regex, listing, evt.body).value;
    assert listing[i] in listing;
  }

  /**
   * But a scan cut short can miss the keyword that should block: with the
   * one stored keyword `k` matching the body, a scan stopped before its
   * first row sends the message to translation.
   */
  lemma CutShortReadMissesKeyword(cfg: Config, evt: Event, env: Environment, k: string)
    requires Ordinary(cfg, evt) && !env.readFails && Matches(cfg.regex, k, evt.body)
    ensures IsRead([], {k}, Some(0)) && Suppresses(cfg.regex, {k}, evt.body)
    ensures Respond(cfg, {k}, [], evt, env).actions
            == TranslationActions(evt.roomId, evt.eventId,
                                  TranslateText(env.provider, cfg.systemPrompt, Normalized(cfg.tables, evt.body)))
  {
    assert k in {k};
  }
}
