/**
 * The rows the bot's PostgreSQL layer keeps (users, phone connections,
 * redirection rules and pending redirections) and the views its read
 * operations hand back to callers.
 */
module Records {

  datatype Option<+T> = None | Some(value: T)

  /** A user identifier, already turned into text by the caller. */
  type UserId = string

  /** A clock reading; the caller supplies it in place of the wall clock. */
  type Instant = nat

  /** A channel identifier resolved by the bot. */
  type ChatId = int

  datatype User = User(
    userId: UserId,
    licenseCode: Option<string>,
    validatedAt: Option<Instant>,
    active: bool)

  datatype Connection = Connection(
    userId: UserId,
    phoneNumber: string,
    connectedAt: Instant,
    active: bool,
    replacedAt: string)

  datatype Redirection = Redirection(
    userId: UserId,
    name: string,
    phoneNumber: string,
    channelName: string,
    sourceId: Option<ChatId>,
    destinationId: Option<ChatId>,
    createdAt: Instant,
    updatedAt: Option<Instant>,
    replacedAt: string,
    active: bool,
    replacementInfo: string)

  datatype PendingRedirection = PendingRedirection(
    userId: UserId,
    name: string,
    phoneNumber: string,
    createdAt: Instant)

  /** One entry of the list of a user's connections. */
  datatype ConnectionInfo = ConnectionInfo(phone: string, connectedAt: Instant, active: bool, replacedAt: string)

  /** One entry of the list of a user's redirections on one phone. */
  datatype RedirectionInfo = RedirectionInfo(name: string, channelName: string, status: string)

  /** The pending redirection of a user, as handed back to the caller. */
  datatype PendingInfo = PendingInfo(name: string, phoneNumber: string, createdAt: Instant)

  /** The status label every listed redirection carries. */
  const ACTIVE_STATUS := "Actif"

  /** The note's fixed prefix: it is twelve characters long. */
  const REPLACED_PREFIX := " (remplacé: "

  /**
   * The channel name a rule is stored with: the name given by the caller
   * when it is truthy (present and non-empty), otherwise the rule's name.
   */
  function ChannelNameOr(channelName: Option<string>, name: string): (r: string)
    ensures channelName.Some? && channelName.value != "" ==> r == channelName.value
    ensures channelName == None || channelName == Some("") ==> r == name
  {
    match channelName
    case Some(given) => if given != "" then given else name
    case None => name
  }

  /** The note a new rule carries when it replaced the rule named `replaced`. */
  function ReplacementNote(replaced: string): (r: string)
    ensures r != ""
    ensures |r| == |REPLACED_PREFIX| + |replaced| + 1 && r[|REPLACED_PREFIX|..|r| - 1] == replaced
  {
    REPLACED_PREFIX + replaced + ")"
  }
}
