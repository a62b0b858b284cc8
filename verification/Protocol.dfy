/** The update handoff's control messages: their 60-byte wire form and the session
    that decides which message may follow which. */
module Protocol {
  import opened Bytes
  import opened Wrappers

  const MESSAGE_BYTES := 60
  const PREFIX: seq<byte> := [0x5a, 0x5a, 0x55, 0x50, 2, 0, 0, 0]

  type Transaction = s: seq<byte> | |s| == 16 witness seq(16, _ => 0)
  type Token = s: seq<byte> | |s| == 32 witness seq(32, _ => 0)

  datatype Kind = Hello | Ready | AwaitingAppExit | CommitExit | Cancel | Failed | Complete | Proceed

  /** The kind is a number that need not name a message at all. */
  datatype Message = Message(kind: u32, transaction: Transaction, token: Token)

  function Code(k: Kind): (code: u32)
    ensures 1 <= code <= 8
  {
    match k
    case Hello => 1
    case Ready => 2
    case AwaitingAppExit => 3
    case CommitExit => 4
    case Cancel => 5
    case Failed => 6
    case Complete => 7
    case Proceed => 8
  }

  predicate Nonzero(s: seq<byte>) {
    exists i :: 0 <= i < |s| && s[i] != 0
  }

  predicate ValidMessage(m: Message) {
    1 <= m.kind <= 8 && Nonzero(m.transaction) && Nonzero(m.token)
  }

  function Encode(m: Message): (bytes: Option<seq<byte>>)
    ensures bytes.Some? ==> |bytes.value| == MESSAGE_BYTES
  {
    if !ValidMessage(m) then None
    else Some(PREFIX + [m.kind % 0x100, 0, 0, 0] + m.transaction + m.token)
  }

  function Decode(bytes: seq<byte>): (m: Option<Message>) {
    if |bytes| != MESSAGE_BYTES then None
    else if bytes[..8] != PREFIX || bytes[9] != 0 || bytes[10] != 0 || bytes[11] != 0 then None
    else
      var m := Message(bytes[8], bytes[12..28], bytes[28..]);
      if ValidMessage(m) then Some(m) else None
  }

  /** Exactly the valid messages have a wire form, and it reads back as the message. */
  lemma DecodeEncode(m: Message)
    ensures Encode(m).Some? <==> ValidMessage(m)
    ensures Encode(m).Some? ==> Decode(Encode(m).value) == Some(m)
  {
    hide Nonzero;
    if ValidMessage(m) {
      WireSlices(PREFIX, [m.kind % 0x100, 0, 0, 0], m.transaction, m.token);
    }
  }

  lemma WireSlices(a: seq<byte>, b: seq<byte>, c: seq<byte>, d: seq<byte>)
    requires |a| == 8 && |b| == 4 && |c| == 16 && |d| == 32
    ensures var s := a + b + c + d;
      s[..8] == a && s[8] == b[0] && s[9] == b[1] && s[10] == b[2] && s[11] == b[3] && s[12..28] == c && s[28..] == d
  {
  }

  /** Byte by byte: the magic, the version, the kind's number, the transaction, the token. */
  lemma WireLayout(k: Kind, transaction: Transaction, token: Token)
    requires Nonzero(transaction) && Nonzero(token)
    ensures var n: byte :=
        match k
        case Hello => 1 case Ready => 2 case AwaitingAppExit => 3 case CommitExit => 4
        case Cancel => 5 case Failed => 6 case Complete => 7 case Proceed => 8;
      Encode(Message(Code(k), transaction, token)) ==
        Some([0x5a, 0x5a, 0x55, 0x50, 2, 0, 0, 0] + [n, 0, 0, 0] + transaction + token)
  {
    hide Nonzero;
  }

  /** What decodes is the wire form of what it decodes to: no second spelling. */
  lemma EncodeDecode(bytes: seq<byte>)
    requires Decode(bytes).Some?
    ensures Encode(Decode(bytes).value) == Some(bytes)
  {
    hide Nonzero;
    assert bytes == bytes[..8] + [bytes[8], bytes[9], bytes[10], bytes[11]] + bytes[12..28] + bytes[28..];
  }

  // ------------------------------------------------------------------ the session

  datatype HandoffState = Connecting | ReadyState | AwaitingExit | ExitCommitted | ExitConfirmed | Completed | Aborted

  /** The one order in which a session can advance. */
  const SCRIPT: seq<Kind> := [Hello, AwaitingAppExit, CommitExit, Proceed, Complete]

  function Position(s: HandoffState): (n: nat)
    ensures n <= |SCRIPT| + 1
  {
    match s
    case Connecting => 0
    case ReadyState => 1
    case AwaitingExit => 2
    case ExitCommitted => 3
    case ExitConfirmed => 4
    case Completed => 5
    case Aborted => 6
  }

  class HandoffSession {
    const transaction: Transaction
    const token: Token
    var state: HandoffState
    ghost var history: seq<Kind> // the messages that advanced the session

    /** While it lives, a session has accepted exactly the script up to its state. */
    ghost predicate Valid()
      reads this
    {
      && (state != Aborted ==> history == SCRIPT[..Position(state)] && Nonzero(transaction) && Nonzero(token))
      && history <= SCRIPT
    }

    constructor (transaction: Transaction, token: Token)
      ensures Valid() && this.transaction == transaction && this.token == token && history == []
      ensures state == if Nonzero(transaction) && Nonzero(token) then Connecting else Aborted
    {
      this.transaction := transaction;
      this.token := token;
      state := if Nonzero(transaction) && Nonzero(token) then Connecting else Aborted;
      history := [];
    }

    /** What this session takes for its own: the right codes and the next kind. */
    ghost predicate Expects(m: Message)
      reads this
    {
      && Ours(m) && state != Aborted && state != Completed
      && m.kind == Code(SCRIPT[Position(state)])
    }

    predicate Ours(m: Message) {
      ValidMessage(m) && m.transaction == transaction && m.token == token
    }

    predicate Ends(m: Message) {
      m.kind == Code(Cancel) || m.kind == Code(Failed)
    }

    /** One message: the next of the script advances, its own Cancel or Failed ends
        the session in agreement, and everything else ends it. */
    method Accept(m: Message) returns (ok: bool)
      requires Valid()
      modifies this
      ensures Valid()
      ensures ok <==> old(Expects(m)) || (Ours(m) && Ends(m) && old(state) != Completed && old(state) != Aborted)
      ensures old(Expects(m)) ==> Position(state) == old(Position(state)) + 1 && state != Aborted
      ensures !old(Expects(m)) ==> state == Aborted && history == old(history)
    {
      hide ValidMessage, Nonzero;
      var previous := state;
      state := Aborted;
      if || previous == Completed || previous == Aborted || !ValidMessage(m)
         || m.transaction != transaction || m.token != token {
        return false;
      }
      if m.kind == Code(Cancel) || m.kind == Code(Failed) {
        return true;
      }
      if previous == Connecting && m.kind == Code(Hello) {
        state := ReadyState;
      } else if previous == ReadyState && m.kind == Code(AwaitingAppExit) {
        state := AwaitingExit;
      } else if previous == AwaitingExit && m.kind == Code(CommitExit) {
        state := ExitCommitted;
      } else if previous == ExitCommitted && m.kind == Code(Proceed) {
        state := ExitConfirmed;
      } else if previous == ExitConfirmed && m.kind == Code(Complete) {
        state := Completed;
      }
      if state != Aborted {
        history := SCRIPT[..Position(state)];
      }
      return state != Aborted;
    }

    predicate CanExit()
      reads this
    {
      state == AwaitingExit || state == ExitCommitted
    }
  }
}
