/** The behaviour of MailFolder as functions on its state: the variant
    selector, the session properties, and one step of open, next and close.
    The class in MailRa is proved to follow these steps exactly. */
module MailSpec {
  import opened MailTypes

  // ---------------------------------------------------------------------
  // Variant selector (getInstance)

  /** The variant getInstance picks for a store protocol, None for null. */
  function VariantOf(protocol: string): (v: Option<Variant>)
    ensures v == Some(POP3) <==> protocol == "pop3"
    ensures v == Some(IMAP) <==> protocol == "imap"
    ensures v == Some(POP3s) <==> protocol == "pop3s"
    ensures v == Some(IMAPs) <==> protocol == "imaps"
    ensures v.None? <==> protocol !in {"pop3", "imap", "pop3s", "imaps"}
  {
    if protocol == "pop3" then Some(POP3)
    else if protocol == "imap" then Some(IMAP)
    else if protocol == "pop3s" then Some(POP3s)
    else if protocol == "imaps" then Some(IMAPs)
    else None
  }

  /** The protocol identifier of each variant. */
  function ProtocolName(v: Variant): string
  {
    match v
    case POP3 => "pop3"
    case IMAP => "imap"
    case POP3s => "pop3s"
    case IMAPs => "imaps"
  }

  /** Every variant is selected by its own name and by no other string. */
  lemma VariantOfNames(v: Variant, protocol: string)
    ensures VariantOf(protocol) == Some(v) <==> protocol == ProtocolName(v)
  {
  }

  /** Selection is case-sensitive. */
  lemma VariantOfIsCaseSensitive()
    ensures VariantOf("POP3") == None && VariantOf("IMAP") == None
    ensures VariantOf("Pop3s") == None && VariantOf("IMAPS") == None
  {
  }

  // ---------------------------------------------------------------------
  // Session properties (constructor)

  /** Java's `b + ""`. */
  function BoolString(b: bool): string
  {
    if b then "true" else "false"
  }

  // LowerAscii, ParseBoolean and BoolStringParses describe how the mail
  // library reads the two flag properties back with Boolean.parseBoolean;
  // MailFolder itself only writes them.

  function LowerAscii(c: char): char
  {
    if 'A' <= c <= 'Z' then (c as int + 32) as char else c
  }

  /** java.lang.Boolean.parseBoolean: "true" in any letter case. */
  predicate ParseBoolean(s: string)
  {
    var t := "true";
    |s| == |t| && forall i :: 0 <= i < |s| ==> LowerAscii(s[i]) == t[i]
  }

  /** A flag written with BoolString reads back as the same flag. */
  lemma BoolStringParses(b: bool)
    ensures ParseBoolean(BoolString(b)) == b
  {
    if !b {
      assert |BoolString(b)| == 5;
    }
  }

  const TransportProtocolKey := "mail.transport.protocol"
  const SmtpHostKey := "mail.smtp.host"
  const DebugKey := "mail.debug"
  const ImapStartTlsKey := "mail.imap.starttls.enable"

  /** The properties the constructor puts into sessionProps: the transport is
      SMTP on the mail server, and the two flags are written as strings that
      parse back to the flags. */
  function SessionProperties(mailServer: string, debug: bool, starttls: bool): (p: map<string, string>)
    ensures p.Keys == {TransportProtocolKey, SmtpHostKey, DebugKey, ImapStartTlsKey}
    ensures p[TransportProtocolKey] == "smtp"
    ensures p[SmtpHostKey] == mailServer
    ensures p[DebugKey] == BoolString(debug) && ParseBoolean(p[DebugKey]) == debug
    ensures p[ImapStartTlsKey] == BoolString(starttls) && ParseBoolean(p[ImapStartTlsKey]) == starttls
  {
    BoolStringParses(debug);
    BoolStringParses(starttls);
    map[TransportProtocolKey := "smtp", SmtpHostKey := mailServer,
        DebugKey := BoolString(debug), ImapStartTlsKey := BoolString(starttls)]
  }

  // ---------------------------------------------------------------------
  // Cursor

  /** The state of a newly constructed folder: no session, store or folder,
      the empty snapshot and position 0. */
  function Initial(props: map<string, string>): State
  {
    State(props, None, None, None, [], 0, [])
  }

  /** hasNext: the position is below the snapshot's length. */
  predicate HasNextIn(s: State)
  {
    s.position as int < |s.msgs|
  }

  /** The position indexes the snapshot (a negative position, reached only
      through wrap-around, does not). */
  predicate InRange(s: State)
  {
    0 <= s.position as int < |s.msgs|
  }

  /** Before open, hasNext is false. */
  lemma InitialHasNoNext(props: map<string, string>)
    ensures !HasNextIn(Initial(props))
  {
  }

  // ---------------------------------------------------------------------
  // open

  /** open gets past connect. */
  predicate Connects(env: OpenEnv)
  {
    env.store.Some? && env.connects
  }

  /** getFolder returned null, or a folder that does not exist. */
  predicate FolderMissing(env: OpenEnv)
  {
    env.lookup.NullFolder? || (env.lookup.Found? && env.existence == Some(false))
  }

  /** Every step of open returns normally. */
  predicate OpenSucceeds(env: OpenEnv)
  {
    Connects(env) && env.lookup.Found? && env.existence == Some(true) && env.opens && env.messages.Some?
  }

  /** The port argument of connect: the explicit port unless it is 0. */
  function PortArgument(port: int32): (a: Option<int32>)
    ensures a.Some? <==> port != 0
    ensures a.Some? ==> a.value == port
  {
    if port == 0 then None else Some(port)
  }

  /** One call of open: a new session from the session properties, openStore,
      connect, getFolder, the existence check, folder.open(READ_WRITE) and
      getMessages, stopping at the first that throws. */
  function OpenStep(c: Config, s: State, env: OpenEnv): (r: After<Outcome>)
    ensures r.state.props == s.props && r.state.position == s.position
    ensures r.state.session == Some(Session(s.props, c.debug))
    ensures r.result.Pass? <==> OpenSucceeds(env)
    ensures r.result == Fail(NoSuchProvider) <==> env.store.None?
    ensures r.result == Fail(FolderNotFound) <==> Connects(env) && FolderMissing(env)
    ensures r.result.Pass? ==> r.state.msgs == env.messages.value
    ensures r.result.Fail? ==> r.state.msgs == s.msgs
    ensures r.state.store == if env.store.Some? then env.store else s.store
    ensures s.log <= r.state.log
  {
    var session := Session(s.props, c.debug);
    var s1 := s.(session := Some(session), log := s.log + [OpenStoreCalled(c.variant, session)]);
    if env.store.None? then After(s1, Fail(NoSuchProvider))
    else
      var s2 := s1.(store := env.store,
                    log := s1.log + [ConnectCalled(c.mailServer, PortArgument(c.port), c.userName, c.password)]);
      if !env.connects then After(s2, Fail(Messaging))
      else OpenFolderStep(c, s2, env)
  }

  /** The folder part of open: getFolder, the existence check,
      folder.open(READ_WRITE) and getMessages. */
  function OpenFolderStep(c: Config, s: State, env: OpenEnv): After<Outcome>
  {
    var s3 := s.(log := s.log + [GetFolderCalled(c.folderName)]);
    match env.lookup
    case LookupThrows => After(s3, Fail(Messaging))
    case NullFolder => After(s3.(folder := None), Fail(FolderNotFound))
    case Found(f) =>
      var s4 := s3.(folder := Some(f), log := s3.log + [ExistsCalled(f)]);
      if env.existence.None? then After(s4, Fail(Messaging))
      else if !env.existence.value then After(s4, Fail(FolderNotFound))
      else
        var s5 := s4.(log := s4.log + [FolderOpenCalled(f, ReadWrite)]);
        if !env.opens then After(s5, Fail(Messaging))
        else
          var s6 := s5.(log := s5.log + [GetMessagesCalled(f)]);
          if env.messages.None? then After(s6, Fail(Messaging))
          else After(s6.(msgs := env.messages.value), Pass)
  }

  /** open neither marks a message nor closes anything, whichever step throws:
      a store or folder it leaves behind stays open until close is called. */
  lemma OpenNeverMarksOrCloses(c: Config, s: State, env: OpenEnv)
    ensures var log := OpenStep(c, s, env).state.log;
      forall e | e in log[|s.log|..] :: !e.MarkSeenCalled? && !e.CloseStoreCalled?
  {
  }

  /** Once the store is there, open connects with the explicit port exactly
      when the port is not 0. */
  lemma OpenConnectsWithPortUnlessZero(c: Config, s: State, env: OpenEnv)
    requires env.store.Some?
    ensures var log := OpenStep(c, s, env).state.log;
      && |log| >= |s.log| + 2
      && log[|s.log|] == OpenStoreCalled(c.variant, Session(s.props, c.debug))
      && log[|s.log| + 1].ConnectCalled?
      && log[|s.log| + 1].host == c.mailServer
      && log[|s.log| + 1].user == c.userName
      && (log[|s.log| + 1].port.Some? <==> c.port != 0)
      && (log[|s.log| + 1].port.Some? ==> log[|s.log| + 1].port.value == c.port)
  {
  }

  /** A missing folder stops open before the folder is opened or any message
      fetched; the snapshot and the position stay as they were. */
  lemma OpenStopsAtMissingFolder(c: Config, s: State, env: OpenEnv)
    requires Connects(env) && FolderMissing(env)
    ensures var r := OpenStep(c, s, env);
      && r.result == Fail(FolderNotFound)
      && r.state.msgs == s.msgs && r.state.position == s.position
      && forall e | e in r.state.log[|s.log|..] :: !e.FolderOpenCalled? && !e.GetMessagesCalled?
  {
  }

  /** A successful open opens the found folder READ_WRITE and only then fetches
      its messages, which become the snapshot; these are its last two calls. */
  lemma OpenOpensReadWriteBeforeFetching(c: Config, s: State, env: OpenEnv)
    requires OpenSucceeds(env)
    ensures var r := OpenStep(c, s, env);
      var n := |r.state.log|;
      var f := env.lookup.folder;
      && n == |s.log| + 6
      && r.state.log[n - 2] == FolderOpenCalled(f, ReadWrite)
      && r.state.log[n - 1] == GetMessagesCalled(f)
      && r.state.store == env.store && r.state.folder == Some(f)
      && r.state.msgs == env.messages.value
  {
  }

  // ---------------------------------------------------------------------
  // close

  /** One call of close(graceful): closeStore with the current store and
      folder. Nothing but the log changes. */
  function CloseStep(s: State, graceful: bool, closeOk: bool): (r: After<Outcome>)
    ensures r.state == s.(log := r.state.log)
    ensures r.state.log == s.log + [CloseStoreCalled(graceful, s.store, s.folder)]
    ensures r.result.Pass? <==> closeOk
    ensures r.result.Fail? ==> r.result.error == CloseFailed
  {
    After(s.(log := s.log + [CloseStoreCalled(graceful, s.store, s.folder)]),
          if closeOk then Pass else Fail(CloseFailed))
  }

  // ---------------------------------------------------------------------
  // next

  /** One call of next. The position is advanced first (Java's
      `msgs[messagePosition++]`); a position outside the snapshot then throws
      without marking or closing; otherwise the message is marked seen and
      returned, or, when marking throws, the folder is closed non-gracefully
      and next throws, with the close's own failure taking the place of the
      marking failure. Nothing but the position and the log changes. */
  function NextStep(s: State, markOk: bool, closeOk: bool): (r: After<Result<Message>>)
    ensures r.state == s.(position := Inc32(s.position), log := r.state.log)
    ensures r.result.Ok? <==> InRange(s) && markOk
    ensures r.result.Ok? ==>
      r.result.value == s.msgs[s.position] && r.state.log == s.log + [MarkSeenCalled(r.result.value)]
    ensures !InRange(s) ==> r.result == Err(IndexOutOfBounds) && r.state.log == s.log
    ensures InRange(s) && !markOk ==>
      && r.state.log == s.log + [MarkSeenCalled(s.msgs[s.position]), CloseStoreCalled(false, s.store, s.folder)]
      && r.result == Err(if closeOk then SeenFailed else CloseFailed)
  {
    var p := s.position;
    var s1 := s.(position := Inc32(p));
    if !(0 <= p as int < |s.msgs|) then After(s1, Err(IndexOutOfBounds))
    else
      var m := s.msgs[p];
      var s2 := s1.(log := s1.log + [MarkSeenCalled(m)]);
      if markOk then After(s2, Ok(m))
      else
        var closed := CloseStep(s2, false, closeOk);
        After(closed.state, if closed.result.Fail? then Err(CloseFailed) else Err(SeenFailed))
  }

  /** For a non-negative position, hasNext holds exactly when next, with
      marking succeeding, returns a message. */
  lemma HasNextIffNextDelivers(s: State, closeOk: bool)
    requires 0 <= s.position
    ensures HasNextIn(s) <==> NextStep(s, true, closeOk).result.Ok?
  {
  }

  /** A message next returns was marked seen, once, by that call, before it
      was returned, and it is the one at the old position. */
  lemma NextMarksBeforeReturning(s: State, markOk: bool, closeOk: bool)
    requires |s.msgs| <= INT32_MAX as int
    requires NextStep(s, markOk, closeOk).result.Ok?
    ensures var r := NextStep(s, markOk, closeOk);
      && 0 <= s.position as int < |s.msgs|
      && r.result.value == s.msgs[s.position]
      && r.state.log == s.log + [MarkSeenCalled(r.result.value)]
      && r.state.position as int == s.position as int + 1
  {
  }

  /** Once the position has passed the end, next never returns a message and
      calls nothing. */
  lemma NextPastEndFails(s: State, markOk: bool, closeOk: bool)
    requires !HasNextIn(s)
    ensures var r := NextStep(s, markOk, closeOk);
      r.result == Err(IndexOutOfBounds) && r.state.log == s.log && r.state.msgs == s.msgs
  {
  }
}
