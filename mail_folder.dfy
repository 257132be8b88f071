/** The polling folder itself: org.wildfly.mail.ra.MailFolder as a class
    with the source's fields. Each method is proved to change the fields
    exactly as the corresponding step of MailSpec says. */
module MailRa {
  import opened MailTypes
  import opened MailSpec

  class MailFolder {
    /** The concrete subclass the folder was created as. */
    const variant: Variant
    const mailServer: string
    const folderName: string
    const userName: string
    const password: string
    const port: int32
    const debug: bool
    const starttls: bool

    var sessionProps: map<string, string>
    var session: Option<Session>
    var store: Option<Store>
    var folder: Option<Folder>
    var msgs: array<Message>
    var messagePosition: int32

    /** Every call made on the mail library and on the variant hooks, in order. */
    ghost var calls: seq<Event>

    /** The snapshot is a Java array. */
    ghost predicate Valid()
      reads this
    {
      msgs.Length <= INT32_MAX as int
    }

    function Configuration(): Config
    {
      Config(variant, mailServer, folderName, userName, password, port, debug, starttls)
    }

    /** The fields as a MailSpec state. */
    ghost function Model(): State
      reads this, msgs
    {
      State(sessionProps, session, store, folder, msgs[..], messagePosition, calls)
    }

    /** Copies the settings of the activation spec and fills the session
        properties, one property at a time. */
    constructor (spec: ActivationSpec, variant: Variant)
      ensures Configuration() == ConfigOf(spec, variant)
      ensures sessionProps == SessionProperties(spec.mailServer, spec.debug, spec.starttls)
      ensures Model() == Initial(sessionProps)
      ensures Valid() && fresh(msgs)
    {
      this.variant := variant;
      mailServer := spec.mailServer;
      folderName := spec.mailFolder;
      userName := spec.userName;
      password := spec.password;
      debug := spec.debug;
      starttls := spec.starttls;
      port := spec.port;
      msgs := new Message[0];
      messagePosition := 0;
      session, store, folder := None, None, None;
      calls := [];
      var props: map<string, string> := map[];
      props := props[TransportProtocolKey := "smtp"];
      props := props[SmtpHostKey := spec.mailServer];
      props := props[DebugKey := BoolString(spec.debug)];
      props := props[ImapStartTlsKey := BoolString(spec.starttls)];
      sessionProps := props;
    }

    /** getInstance: a new folder of the variant the store protocol names,
        or null for any other protocol. */
    static method GetInstance(spec: ActivationSpec) returns (f: MailFolder?)
      ensures f == null <==> VariantOf(spec.storeProtocol).None?
      ensures f != null ==>
        && fresh(f) && fresh(f.msgs) && f.Valid()
        && f.variant == VariantOf(spec.storeProtocol).value
        && f.Configuration() == ConfigOf(spec, f.variant)
        && f.Model() == Initial(SessionProperties(spec.mailServer, spec.debug, spec.starttls))
    {
      if spec.storeProtocol == "pop3" {
        f := new MailFolder(spec, POP3);
      } else if spec.storeProtocol == "imap" {
        f := new MailFolder(spec, IMAP);
      } else if spec.storeProtocol == "pop3s" {
        f := new MailFolder(spec, POP3s);
      } else if spec.storeProtocol == "imaps" {
        f := new MailFolder(spec, IMAPs);
      } else {
        f := null;
      }
    }

    /** open: session, openStore, connect, getFolder, the existence check,
        folder.open(READ_WRITE) and getMessages, in that order; the first
        that throws ends it. */
    method Open(env: OpenEnv) returns (r: Outcome)
      requires Valid() && FetchFits(env)
      modifies this
      ensures Valid()
      ensures messagePosition == old(messagePosition)
      ensures After(Model(), r) == OpenStep(Configuration(), old(Model()), env)
    {
      var s := Session(sessionProps, debug);
      session := Some(s);
      var st := OpenStore(s, env.store);
      if st.None? {
        return Fail(NoSuchProvider);
      }
      store := st;
      if port == 0 {
        calls := calls + [ConnectCalled(mailServer, None, userName, password)];
      } else {
        calls := calls + [ConnectCalled(mailServer, Some(port), userName, password)];
      }
      if !env.connects {
        return Fail(Messaging);
      }
      r := OpenFolder(env);
    }

    /** The folder part of open, after connect. */
    method OpenFolder(env: OpenEnv) returns (r: Outcome)
      requires Valid() && FetchFits(env)
      modifies this
      ensures Valid()
      ensures messagePosition == old(messagePosition)
      ensures After(Model(), r) == OpenFolderStep(Configuration(), old(Model()), env)
    {
      calls := calls + [GetFolderCalled(folderName)];
      if env.lookup.LookupThrows? {
        return Fail(Messaging);
      }
      folder := if env.lookup.Found? then Some(env.lookup.folder) else None;
      if folder.None? {
        return Fail(FolderNotFound);
      }
      var f := folder.value;
      calls := calls + [ExistsCalled(f)];
      if env.existence.None? {
        return Fail(Messaging);
      }
      if !env.existence.value {
        return Fail(FolderNotFound);
      }
      calls := calls + [FolderOpenCalled(f, ReadWrite)];
      if !env.opens {
        return Fail(Messaging);
      }
      var fetched := GetMessages(f, env.messages);
      if fetched.None? {
        return Fail(Messaging);
      }
      msgs := fetched.value;
      r := Pass;
    }

    /** close(): close(true). */
    method Close(closeOk: bool) returns (r: Outcome)
      modifies this
      ensures After(Model(), r) == CloseStep(old(Model()), true, closeOk)
      ensures msgs == old(msgs)
    {
      r := CloseChecked(true, closeOk);
    }

    /** hasNext. */
    predicate HasNext()
      reads this, msgs
      ensures HasNext() == HasNextIn(Model())
    {
      messagePosition as int < msgs.Length
    }

    /** next: advances the position, then takes the message at the old
        position and marks it seen; if marking throws, closes the folder
        non-gracefully and throws. */
    method Next(markOk: bool, closeOk: bool) returns (r: Result<Message>)
      requires Valid()
      modifies this
      ensures Valid() && msgs == old(msgs)
      ensures After(Model(), r) == NextStep(old(Model()), markOk, closeOk)
    {
      var p := messagePosition;
      messagePosition := Inc32(messagePosition);
      if !(0 <= p as int < msgs.Length) {
        return Err(IndexOutOfBounds);
      }
      var m := msgs[p];
      var marked := MarkMessageSeen(m, markOk);
      if marked {
        return Ok(m);
      }
      var closed := CloseChecked(false, closeOk);
      r := if closed.Fail? then Err(CloseFailed) else Err(SeenFailed);
    }

    /** remove: always UnsupportedOperationException; the folder is untouched. */
    method Remove() returns (r: Outcome)
      ensures r == Fail(Unsupported)
    {
      r := Fail(Unsupported);
    }

    /** close(checkSuccessful): closeStore with the current store and folder;
        its failure becomes CloseFailed. */
    method CloseChecked(checkSuccessful: bool, closeOk: bool) returns (r: Outcome)
      modifies this
      ensures After(Model(), r) == CloseStep(old(Model()), checkSuccessful, closeOk)
      ensures msgs == old(msgs)
    {
      var closed := CloseStore(checkSuccessful, store, folder, closeOk);
      r := if closed then Pass else Fail(CloseFailed);
    }

    // -------------------------------------------------------------------
    // The variant hooks. Their bodies belong to the four subclasses and are
    // not part of this model: each records its call, and what it does is
    // given by its last parameter.

    /** openStore(session): the store, or None when it throws. */
    method OpenStore(s: Session, provided: Option<Store>) returns (r: Option<Store>)
      modifies this`calls
      ensures calls == old(calls) + [OpenStoreCalled(variant, s)]
      ensures r == provided
    {
      calls := calls + [OpenStoreCalled(variant, s)];
      r := provided;
    }

    /** closeStore(success, store, folder): true when it returns normally. */
    method CloseStore(success: bool, st: Option<Store>, f: Option<Folder>, closes: bool) returns (ok: bool)
      modifies this`calls
      ensures calls == old(calls) + [CloseStoreCalled(success, st, f)]
      ensures ok == closes
    {
      calls := calls + [CloseStoreCalled(success, st, f)];
      ok := closes;
    }

    /** getMessages(folder): a new array holding the messages, or None when
        it throws. */
    method GetMessages(f: Folder, fetched: Option<seq<Message>>) returns (r: Option<array<Message>>)
      modifies this`calls
      ensures calls == old(calls) + [GetMessagesCalled(f)]
      ensures r.Some? <==> fetched.Some?
      ensures r.Some? ==> fresh(r.value) && r.value[..] == fetched.value
    {
      calls := calls + [GetMessagesCalled(f)];
      if fetched.None? {
        return None;
      }
      var ms := fetched.value;
      var a := new Message[|ms|](i requires 0 <= i < |ms| => ms[i]);
      r := Some(a);
    }

    /** markMessageSeen(message): true when it returns normally. */
    method MarkMessageSeen(m: Message, succeeds: bool) returns (ok: bool)
      modifies this`calls
      ensures calls == old(calls) + [MarkSeenCalled(m)]
      ensures ok == succeeds
    {
      calls := calls + [MarkSeenCalled(m)];
      ok := succeeds;
    }
  }
}
