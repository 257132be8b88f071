/** Values shared by the model of the mail resource adapter's polling folder
    (org.wildfly.mail.ra.MailFolder): the folder's configuration, the handles
    the mail library hands out, the calls the folder makes on the library and
    on its variant hooks, and the failures it reports. */
module MailTypes {

  /** Java's 32-bit `int`. */
  newtype int32 = x: int | -0x8000_0000 <= x < 0x8000_0000

  const INT32_MAX: int32 := 0x7fff_ffff
  const INT32_MIN: int32 := -0x8000_0000

  /** Java's `x + 1` on an `int`: the largest value wraps to the smallest. */
  function Inc32(x: int32): (r: int32)
    ensures x < INT32_MAX ==> r as int == x as int + 1
    ensures x == INT32_MAX ==> r == INT32_MIN
  {
    if x == INT32_MAX then INT32_MIN else x + 1
  }

  datatype Option<T> = None | Some(value: T)

  /** A reference to one message of the mail store. */
  datatype Message = Message(number: nat)

  /** The four concrete folder classes: POP3MailFolder, IMAPMailFolder,
      POP3sMailFolder and IMAPsMailFolder. */
  datatype Variant = POP3 | IMAP | POP3s | IMAPs

  /** A mail session: the properties it was created from and its debug flag. */
  datatype Session = Session(properties: map<string, string>, debug: bool)

  /** Opaque handles handed out by the mail library. */
  datatype Store = Store(id: nat)
  datatype Folder = Folder(id: nat)

  /** The access modes of a folder (Folder.READ_ONLY and Folder.READ_WRITE). */
  datatype Mode = ReadOnly | ReadWrite

  /** One call the folder makes on the mail library or on a variant hook,
      recorded whether or not the call then throws. */
  datatype Event =
    | OpenStoreCalled(variant: Variant, session: Session)
    | ConnectCalled(host: string, port: Option<int32>, user: string, password: string)
    | GetFolderCalled(name: string)
    | ExistsCalled(folder: Folder)
    | FolderOpenCalled(folder: Folder, mode: Mode)
    | GetMessagesCalled(folder: Folder)
    | MarkSeenCalled(message: Message)
    | CloseStoreCalled(graceful: bool, storeArg: Option<Store>, folderArg: Option<Folder>)

  /** What an operation throws. */
  datatype Failure =
    | NoSuchProvider   // openStore threw NoSuchProviderException
    | Messaging        // the mail library threw MessagingException
    | FolderNotFound   // open found no folder, or a folder that does not exist
    | SeenFailed       // next wrapped markMessageSeen's exception in a RuntimeException
    | CloseFailed      // close wrapped closeStore's exception ("Error closing mail store")
    | IndexOutOfBounds // next indexed the snapshot outside its bounds
    | Unsupported      // remove: UnsupportedOperationException

  datatype Result<T> = Ok(value: T) | Err(error: Failure)

  datatype Outcome = Pass | Fail(error: Failure)

  /** The getters of the activation spec that the folder reads. */
  datatype ActivationSpec = ActivationSpec(
    mailServer: string,
    mailFolder: string,
    userName: string,
    password: string,
    port: int32,
    debug: bool,
    starttls: bool,
    storeProtocol: string)

  /** The settings a folder copies from its activation spec, with its variant. */
  datatype Config = Config(
    variant: Variant,
    mailServer: string,
    folderName: string,
    userName: string,
    password: string,
    port: int32,
    debug: bool,
    starttls: bool)

  function ConfigOf(spec: ActivationSpec, variant: Variant): Config
  {
    Config(variant, spec.mailServer, spec.mailFolder, spec.userName, spec.password,
           spec.port, spec.debug, spec.starttls)
  }

  /** The mutable part of a folder: the session properties, the session, store
      and folder handles (None is Java's null), the message snapshot, the
      cursor position and the log of calls made so far. */
  datatype State = State(
    props: map<string, string>,
    session: Option<Session>,
    store: Option<Store>,
    folder: Option<Folder>,
    msgs: seq<Message>,
    position: int32,
    log: seq<Event>)

  /** The state after an operation, with what the operation returned. */
  datatype After<R> = After(state: State, result: R)

  /** What store.getFolder did. */
  datatype Lookup = LookupThrows | NullFolder | Found(folder: Folder)

  /** How the mail library and the variant's hooks behave during one open:
      the store openStore returns (None: it throws), whether connect returns,
      what getFolder does, what folder.exists answers (None: it throws), whether the
      folder opens, and the messages getMessages returns (None: it throws). */
  datatype OpenEnv = OpenEnv(
    store: Option<Store>,
    connects: bool,
    lookup: Lookup,
    existence: Option<bool>,
    opens: bool,
    messages: Option<seq<Message>>)

  /** A Java array holds at most INT32_MAX elements. */
  predicate FetchFits(env: OpenEnv)
  {
    env.messages.Some? ==> |env.messages.value| <= INT32_MAX as int
  }
}
