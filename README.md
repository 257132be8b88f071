# MailFolder: the polling cursor of the WildFly mail resource adapter

This project models `org.wildfly.mail.ra.MailFolder`, the abstract class that the mail
activation uses to poll a mail store folder, and proves properties of the model. Its four
subclasses are POP3, IMAP, POP3s and IMAPs. One `MailFolder` copies the settings of an
activation spec and builds the session properties. Its `open` connects to the store,
finds the folder, opens it read-write and snapshots its messages. After that it works as
a consume-on-read iterator: `next` advances the position, marks the message seen through
the variant's hook and returns it. If marking fails, `next` closes the store
non-gracefully and throws. `getInstance` picks the subclass from the store protocol
string.

The model has four modules:

- `MailTypes` (`mail_types.dfy`) holds the values. These are Java's 32-bit `int`
  (`int32`, with the wrap-around of `++`), messages, the opaque handles the mail
  library hands out, the session, and the four variants. It also holds the log of calls
  (`Event`), the failures an operation throws (`Failure`), and the folder's mutable
  state as a value (`State`).
- `MailSpec` (`mail_spec.dfy`) describes each operation as a function on `State`:
  `OpenStep`, `NextStep` and `CloseStep`. It also has the `hasNext` test, the variant
  selector and the session properties. Lemmas state what each step promises.
- `MailCycle` (`mail_cycle.dfy`) holds lemmas about several calls in a row. The main
  ones cover draining a snapshot and a whole polling cycle on a new folder.
- `MailRa` (`mail_folder.dfy`) is the class `MailFolder`, with the source's fields
  (`sessionProps`, `session`, `store`, `folder`, `msgs`, `messagePosition`). Each
  method is proved to change the fields exactly as the matching step of `MailSpec`
  says (`After(Model(), r) == NextStep(old(Model()), ...)`).

The mail library and the four abstract hooks are not part of this model. The hooks are
`openStore`, `closeStore`, `getMessages` and `markMessageSeen`, and their subclass
bodies are not shown. What they do is given as parameters: an `OpenEnv` value for the
calls `open` makes, and `markOk` and `closeOk` for `next` and `close`. So every contract
holds for every way the library can behave. Every call the folder makes on a hook, and every
library call except `Session.getInstance` and `session.setDebug`, is appended to a ghost
log (`calls` on the class, `log` on `State`). This
is how the contracts state order: `folder.open(READ_WRITE)` comes before
`getMessages`, and `markMessageSeen(m)` comes before `m` is returned.

The Java `open` is one method. The model splits it into `Open` (session, `openStore`,
`connect`) and `OpenFolder` (`getFolder`, the existence check, `folder.open`,
`getMessages`). Together they run the same statements in the same order.

The code gives none of the following guarantees; the model follows the code:

- `open` releases nothing when a step fails. A failure after `openStore` leaves the
  store (and maybe the folder) in the fields, and nothing closes them until `close` is
  called (`MailSpec.OpenNeverMarksOrCloses`).
- When `markMessageSeen` fails and the `close(false)` that follows also fails, the
  caller sees the close failure. The marking failure is replaced (`MailSpec.NextStep`,
  result `CloseFailed`).
- `close()` always calls `closeStore(true, store, folder)`, even after a failed or
  missing `open`. Whether that succeeds depends on the hook, so the model does not
  claim that closing always succeeds or that closing twice is safe.
- The constructor does not check for a missing host. It also sets
  `mail.transport.protocol` to `smtp` and `mail.smtp.host` to the mail server.
- `msgs[messagePosition++]` advances the position before the bounds check. So a `next`
  past the end still moves the position forward. It then throws an index exception
  without marking or closing anything. The position is a Java `int`: after about 2^31
  such calls it wraps to a negative value. From then on `hasNext` is true again while
  `next` still fails (`MailCycle.WrappedPositionHasNextButFails`), until the position
  climbs back to 0, when `next` hands out `msgs[0]` again
  (`MailCycle.WrappedPositionReturnsFirstAgain`).

## Model

| member | source | states |
|---|---|---|
| `MailSpec.VariantOf` | impl/src/main/java/org/wildfly/mail/ra/MailFolder.java:158-170 | exactly `"pop3"`, `"imap"`, `"pop3s"` and `"imaps"` select POP3, IMAP, POP3s and IMAPs, each if and only if; every other string gives None (null) |
| `MailSpec.VariantOfNames` | impl/src/main/java/org/wildfly/mail/ra/MailFolder.java:158-170 | a string selects a variant if and only if it is that variant's protocol name (the selector and the names are inverse) |
| `MailSpec.VariantOfIsCaseSensitive` | impl/src/main/java/org/wildfly/mail/ra/MailFolder.java:159-166 | upper- or mixed-case spellings such as `"IMAP"` and `"Pop3s"` select nothing |
| `MailSpec.SessionProperties` | impl/src/main/java/org/wildfly/mail/ra/MailFolder.java:67-73 | the properties have exactly four keys: transport `smtp`, `mail.smtp.host` the mail server, and `mail.debug` and `mail.imap.starttls.enable` the flags written as strings that parse back to the flags |
| `MailSpec.BoolStringParses` | impl/src/main/java/org/wildfly/mail/ra/MailFolder.java:70-73 | a flag written as `b + ""` reads back under Boolean.parseBoolean as the same flag |
| `MailSpec.InitialHasNoNext` | impl/src/main/java/org/wildfly/mail/ra/MailFolder.java:50-51 | with the initial empty snapshot and position 0, hasNext is false |
| `MailSpec.OpenStep` | impl/src/main/java/org/wildfly/mail/ra/MailFolder.java:81-100 | open succeeds if and only if every library step and getMessages return normally. It throws NoSuchProvider if and only if openStore throws. It throws FolderNotFound if and only if it connected and the folder is null or does not exist. On success the snapshot is the fetched list; on failure the snapshot is unchanged. The position is never reset, the session is rebuilt from the session properties, the store field changes only when openStore returns, and the log only grows |
| `MailSpec.OpenNeverMarksOrCloses` | impl/src/main/java/org/wildfly/mail/ra/MailFolder.java:81-100 | whatever step fails, open neither marks a message nor calls closeStore |
| `MailSpec.OpenConnectsWithPortUnlessZero` | impl/src/main/java/org/wildfly/mail/ra/MailFolder.java:86-91 | after openStore, connect is called with the mail server and user. The explicit port is passed if and only if the port is not 0, and then it is the configured port |
| `MailSpec.OpenStopsAtMissingFolder` | impl/src/main/java/org/wildfly/mail/ra/MailFolder.java:92-96 | a null or missing folder makes open throw FolderNotFound before any folder.open or getMessages call; the snapshot and the position are untouched |
| `MailSpec.OpenOpensReadWriteBeforeFetching` | impl/src/main/java/org/wildfly/mail/ra/MailFolder.java:98-99 | on success the last two calls are folder.open(READ_WRITE) and then getMessages on the same found folder; store, folder and snapshot are the ones the library returned |
| `MailSpec.CloseStep` | impl/src/main/java/org/wildfly/mail/ra/MailFolder.java:144-150 | close(graceful) makes one closeStore call, with the flag and the current store and folder. It succeeds exactly when closeStore does and fails with CloseFailed otherwise; nothing but the log changes |
| `MailSpec.NextStep` | impl/src/main/java/org/wildfly/mail/ra/MailFolder.java:121-130 | next advances the position by one (Java wrap-around) and changes nothing else but the log. It returns a message if and only if the old position indexes the snapshot and marking succeeds; the message is `msgs[p]`, and the log gained exactly markMessageSeen of it. An out-of-range position throws an index error with no call. A failed mark is followed by closeStore(false, store, folder) and an error, which is CloseFailed when that close fails |
| `MailSpec.HasNextIffNextDelivers` | impl/src/main/java/org/wildfly/mail/ra/MailFolder.java:114-125 | for a non-negative position, hasNext holds if and only if next (marking succeeding) returns a message |
| `MailSpec.NextMarksBeforeReturning` | impl/src/main/java/org/wildfly/mail/ra/MailFolder.java:121-125 | a message next returns is `msgs[p]` for the old position p. It was marked seen exactly once, by that call, before being returned, and the position becomes p+1 |
| `MailSpec.NextPastEndFails` | impl/src/main/java/org/wildfly/mail/ra/MailFolder.java:123 | once hasNext is false, next never returns a message, calls nothing and keeps the snapshot |
| `MailCycle.NextTimesState` | impl/src/main/java/org/wildfly/mail/ra/MailFolder.java:121-125 | k calls of next that stay inside the snapshot, with marking succeeding, advance the position by k. The log gains markMessageSeen for those k messages in snapshot order, and nothing else changes |
| `MailCycle.NextTimesResults` | impl/src/main/java/org/wildfly/mail/ra/MailFolder.java:121-125 | those k calls, with marking succeeding, return the next k messages of the snapshot, in order |
| `MailCycle.DrainFromStart` | impl/src/main/java/org/wildfly/mail/ra/MailFolder.java:114-130 | from position 0, N calls of next return the snapshot's N messages in order, with hasNext true before each and false after the last. Each message was marked once in that order, and another next, whatever marking and closing would do, fails without a message or a call |
| `MailCycle.PollingCycle` | impl/src/main/java/org/wildfly/mail/ra/MailFolder.java:81-130 | on a newly built folder, a successful open followed by N calls of next delivers exactly the N fetched messages in folder order; one more next, whatever marking and closing would do, fails without a message or a call |
| `MailCycle.WrappedPositionReturnsFirstAgain` | impl/src/main/java/org/wildfly/mail/ra/MailFolder.java:114-125 | a wrapped position climbing back from -1 reaches 0 with an index error; hasNext is then true, and the following next marks and returns `msgs[0]` a second time |
| `MailCycle.WrappedPositionHasNextButFails` | impl/src/main/java/org/wildfly/mail/ra/MailFolder.java:114-123 | a position driven to Integer.MAX_VALUE wraps to Integer.MIN_VALUE on the next call; hasNext is then true, yet next still throws the index error |
| `MailRa.MailFolder.constructor` | impl/src/main/java/org/wildfly/mail/ra/MailFolder.java:58-74 | copies the spec's settings; the session properties are `SessionProperties` of the mail server and flags; empty snapshot, position 0, no session, store or folder, and an empty log |
| `MailRa.MailFolder.GetInstance` | impl/src/main/java/org/wildfly/mail/ra/MailFolder.java:158-170 | returns null exactly when `VariantOf` gives None, and otherwise a new folder of the selected variant built from the spec |
| `MailRa.MailFolder.Open` | impl/src/main/java/org/wildfly/mail/ra/MailFolder.java:81-100 | the new fields and the result are exactly `OpenStep` of the old fields; the position is unchanged |
| `MailRa.MailFolder.OpenFolder` | impl/src/main/java/org/wildfly/mail/ra/MailFolder.java:92-99 | the folder part of open, from getFolder on, changes the fields exactly as the matching part of `OpenStep` does |
| `MailRa.MailFolder.Close` | impl/src/main/java/org/wildfly/mail/ra/MailFolder.java:107-109 | close() is `CloseStep` with graceful = true |
| `MailRa.MailFolder.CloseChecked` | impl/src/main/java/org/wildfly/mail/ra/MailFolder.java:144-150 | close(checkSuccessful) changes the fields exactly as `CloseStep` does |
| `MailRa.MailFolder.HasNext` | impl/src/main/java/org/wildfly/mail/ra/MailFolder.java:114-116 | hasNext on the fields is the `HasNextIn` test on the model, the partner of `HasNextIffNextDelivers` |
| `MailRa.MailFolder.Next` | impl/src/main/java/org/wildfly/mail/ra/MailFolder.java:121-130 | the new fields and the result are exactly `NextStep` of the old fields; the snapshot array is the same one |
| `MailRa.MailFolder.Remove` | impl/src/main/java/org/wildfly/mail/ra/MailFolder.java:135-137 | always fails with Unsupported, and it modifies nothing |
| `MailRa.MailFolder.OpenStore` | impl/src/main/java/org/wildfly/mail/ra/MailFolder.java:179 | the openStore hook: logs its call with the variant and session and returns the given store or throws |
| `MailRa.MailFolder.CloseStore` | impl/src/main/java/org/wildfly/mail/ra/MailFolder.java:189 | the closeStore hook: logs its call with its three arguments and returns or throws as given |
| `MailRa.MailFolder.GetMessages` | impl/src/main/java/org/wildfly/mail/ra/MailFolder.java:198 | the getMessages hook: logs its call and returns a new array holding the given messages, or throws |
| `MailRa.MailFolder.MarkMessageSeen` | impl/src/main/java/org/wildfly/mail/ra/MailFolder.java:206 | the markMessageSeen hook: logs its call on the message and returns or throws as given |

## Left out

- JavaMail calls (`store.connect`, `getFolder`, `exists`, `folder.open`): foreign library code. Each is a logged call whose outcome comes from `OpenEnv`.
- `Session.getInstance` and `session.setDebug`: always return normally in the model and are not logged; a failure of either is not modelled.
- The bodies of `openStore`, `closeStore`, `getMessages` and `markMessageSeen`: they live in the four subclasses and are not part of this model. No per-variant seen, delete or close behaviour is assumed.
- Exception types and messages: each failure is one `Failure` value. Cause chains and the text of the `RuntimeException` and `MessagingException` messages are not kept.
- Null: strings here are never null, and `Integer port` is an `int32`. The `NullPointerException` from a null mail server in `setProperty`, or from unboxing a null port, is not modelled. Nor are hooks returning null: an `openStore` returning null would throw a `NullPointerException` at `connect`, and a `getMessages` returning null would make `hasNext` and `next` throw one.
- The effect of `session.setDebug(debug)`: kept only as the debug flag of the `Session` value. Debug output and credential handling are not modelled.
- Identity and aliasing: messages, stores and folders are values, not objects. The array `getMessages` returns is modelled as a new array owned by the folder, so outside writes to a shared array are not captured.
- `Iterator` conformance and multithreaded use: the folder has a single owner, and Dafny has no interface to conform to.
