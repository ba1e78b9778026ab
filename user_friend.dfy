/** A friendship between two users and its status. No transition checks the
    current status, so every operation is allowed in every state. */
module Friends {
  import opened JavaLang

  /** UserFriend.FriendStatus */
  datatype FriendStatus = PENDING | ACCEPTED | REJECTED | BLOCKED

  /** FriendStatus.getDisplayName */
  function StatusDisplayName(s: FriendStatus): string {
    match s
    case PENDING => "Beklemede"
    case ACCEPTED => "Kabul Edildi"
    case REJECTED => "Reddedildi"
    case BLOCKED => "Engellendi"
  }

  /** Each status has its own display name, so the name identifies the status. */
  lemma StatusDisplayNameInjective(a: FriendStatus, b: FriendStatus)
    ensures StatusDisplayName(a) == StatusDisplayName(b) ==> a == b
  {
    if a != b {
      assert StatusDisplayName(a)[0] != StatusDisplayName(b)[0] || |StatusDisplayName(a)| != |StatusDisplayName(b)|;
    }
  }

  /** The mutable part of a friendship. */
  datatype FriendState = FriendState(
    status: FriendStatus,
    acceptedAt: Option<int>,
    blockedAt: Option<int>,
    blockReason: Option<string>)

  function Accepted(f: FriendState, now: int): FriendState {
    f.(status := ACCEPTED, acceptedAt := Some(now))
  }

  function Blocked(f: FriendState, reason: Option<string>, now: int): FriendState {
    f.(status := BLOCKED, blockedAt := Some(now), blockReason := reason)
  }

  function Unblocked(f: FriendState): FriendState {
    f.(status := ACCEPTED, blockedAt := None, blockReason := None)
  }

  function Rejected(f: FriendState): FriendState {
    f.(status := REJECTED)
  }

  /** The operations of the entity, applied one after another. */
  datatype Event = AcceptAt(now: int) | BlockAt(reason: Option<string>, now: int) | UnblockEvent | RejectEvent

  function Apply(f: FriendState, e: Event): FriendState {
    match e
    case AcceptAt(now) => Accepted(f, now)
    case BlockAt(reason, now) => Blocked(f, reason, now)
    case UnblockEvent => Unblocked(f)
    case RejectEvent => Rejected(f)
  }

  function Run(f: FriendState, es: seq<Event>): FriendState
    decreases |es|
  {
    if es == [] then f else Run(Apply(f, es[0]), es[1..])
  }

  /** The status after any event depends on the event alone, never on the
      prior status; in particular every status is reachable from every status. */
  lemma StatusOfEvent(f: FriendState, g: FriendState, e: Event)
    ensures Apply(f, e).status == Apply(g, e).status
    ensures Apply(f, e).status == match e
      case AcceptAt(_) => ACCEPTED
      case BlockAt(_, _) => BLOCKED
      case UnblockEvent => ACCEPTED
      case RejectEvent => REJECTED
  {
  }

  /** A BLOCKED friendship always carries its block instant, and a block
      reason never outlives the block instant. */
  ghost predicate BlockFieldsOk(f: FriendState) {
    (f.status == BLOCKED ==> f.blockedAt.Some?) && (f.blockedAt.None? ==> f.blockReason.None?)
  }

  /** Every sequence of operations keeps the block fields consistent. */
  lemma {:induction false} RunKeepsBlockFields(f: FriendState, es: seq<Event>)
    requires BlockFieldsOk(f)
    ensures BlockFieldsOk(Run(f, es))
    decreases |es|
  {
    if es != [] {
      var g := Apply(f, es[0]);
      assert BlockFieldsOk(g);
      RunKeepsBlockFields(g, es[1..]);
    }
  }

  /** Unblocking a friendship that was accepted and unblocked before the
      block restores it exactly, including its accepted instant. */
  lemma UnblockUndoesBlock(f: FriendState, reason: Option<string>, now: int)
    requires f.status == ACCEPTED && f.blockedAt == None && f.blockReason == None
    ensures Unblocked(Blocked(f, reason, now)) == f
  {
  }

  /** Accepting or rejecting a blocked friendship does not clear the block
      instant or reason; only unblock does. */
  lemma BlockOutlivesAcceptAndReject(f: FriendState, reason: Option<string>, now: int, later: int)
    ensures var g := Accepted(Blocked(f, reason, now), later);
      g.status == ACCEPTED && g.acceptedAt == Some(later) && g.blockedAt == Some(now) && g.blockReason == reason
    ensures var g := Rejected(Blocked(f, reason, now));
      g.status == REJECTED && g.blockedAt == Some(now) && g.blockReason == reason
    ensures var g := Unblocked(Blocked(f, reason, now));
      g.blockedAt == None && g.blockReason == None
  {
  }

  class UserFriend {
    var userId: int
    var friendId: int
    var createdAt: int
    var status: FriendStatus
    var acceptedAt: Option<int>
    var blockedAt: Option<int>
    var blockReason: Option<string>

    function State(): FriendState
      reads this
    {
      FriendState(status, acceptedAt, blockedAt, blockReason)
    }

    constructor (userId: int, friendId: int, now: int)
      ensures this.userId == userId && this.friendId == friendId && createdAt == now
      ensures State() == FriendState(PENDING, None, None, None)
      ensures BlockFieldsOk(State())
    {
      this.userId := userId;
      this.friendId := friendId;
      createdAt := now;
      status := PENDING;
      acceptedAt := None;
      blockedAt := None;
      blockReason := None;
    }

    method Accept(now: int)
      modifies this`status, this`acceptedAt
      ensures State() == Accepted(old(State()), now)
      ensures status == ACCEPTED && acceptedAt == Some(now)
    {
      status := ACCEPTED;
      acceptedAt := Some(now);
    }

    method Block(reason: Option<string>, now: int)
      modifies this`status, this`blockedAt, this`blockReason
      ensures State() == Blocked(old(State()), reason, now)
      ensures status == BLOCKED && blockedAt == Some(now) && blockReason == reason
    {
      status := BLOCKED;
      blockedAt := Some(now);
      blockReason := reason;
    }

    method Unblock()
      modifies this`status, this`blockedAt, this`blockReason
      ensures State() == Unblocked(old(State()))
      ensures status == ACCEPTED && blockedAt == None && blockReason == None
    {
      status := ACCEPTED;
      blockedAt := None;
      blockReason := None;
    }

    method Reject()
      modifies this`status
      ensures State() == Rejected(old(State()))
      ensures status == REJECTED
    {
      status := REJECTED;
    }
  }
}
