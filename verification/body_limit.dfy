/** The request-body limit as a transducer between the server's messages and the application's. */
module BodyLimit {
  import opened Collections

  datatype Message = Request(body: seq<int>, more: bool) | Disconnect | OtherIn(kind: string)

  datatype Response = Start(status: int) | Body(content: string) | OtherOut(kind: string)

  /** What the server will answer to the n-th receive. */
  type Incoming = nat -> Message

  const TOO_LARGE := 413

  function Rejection(): seq<Response> {
    [Start(TOO_LARGE), Body("request body too large")]
  }

  function SizeOf(message: Message): nat {
    if message.Request? then |message.body| else 0
  }

  // ---- the declared length ----

  datatype Header = Header(name: string, value: string)

  predicate IsDigits(s: string) {
    s != "" && forall i :: 0 <= i < |s| ==> '0' <= s[i] <= '9'
  }

  function Decimal(s: string): nat
    requires forall i :: 0 <= i < |s| ==> '0' <= s[i] <= '9'
  {
    if s == "" then 0 else 10 * Decimal(s[..|s| - 1]) + (s[|s| - 1] as int - '0' as int)
  }

  /** The usual decimal digits of a number. */
  function Digits(n: nat): string {
    if n < 10 then [DigitOf(n)] else Digits(n / 10) + [DigitOf(n % 10)]
  }

  function DigitOf(d: nat): char
    requires d < 10
  {
    "0123456789"[d]
  }

  lemma DigitValue(d: nat)
    requires d < 10
    ensures '0' <= DigitOf(d) <= '9' && DigitOf(d) as int - '0' as int == d
  {
  }

  /** Reading undoes printing, whatever zeros come first. */
  lemma {:induction false} ReadsDecimal(zeros: nat, n: nat)
    ensures var s := seq(zeros, _ => '0') + Digits(n);
      IsDigits(s) && Decimal(s) == n
    decreases zeros + n
  {
    var zero := seq(zeros, _ => '0');
    DigitValue(n % 10);
    if n >= 10 {
      ReadsDecimal(zeros, n / 10);
      ReadsOneMore(zero + Digits(n / 10), n % 10);
      assert zero + Digits(n) == zero + Digits(n / 10) + [DigitOf(n % 10)];
    } else {
      Zeros(zeros);
      ReadsOneMore(zero, n);
    }
    hide Decimal, DigitOf;
  }

  lemma ReadsOneMore(s: string, d: nat)
    requires d < 10 && forall i :: 0 <= i < |s| ==> '0' <= s[i] <= '9'
    ensures var more := s + [DigitOf(d)];
      IsDigits(more) && Decimal(more) == 10 * Decimal(s) + d
  {
    DigitValue(d);
    assert (s + [DigitOf(d)])[..|s|] == s;
    hide DigitOf;
  }

  lemma {:induction false} Zeros(zeros: nat)
    ensures Decimal(seq(zeros, _ => '0')) == 0
  {
    if zeros > 0 {
      Zeros(zeros - 1);
      assert seq(zeros, _ => '0')[..zeros - 1] == seq(zeros - 1, _ => '0');
    }
  }

  predicate Declares(h: Header) {
    h.name == "content-length" && IsDigits(h.value)
  }

  /** The first content-length header that is a number. */
  method ContentLength(headers: seq<Header>) returns (length: Option<nat>)
    ensures length == None <==> forall i :: 0 <= i < |headers| ==> !Declares(headers[i])
    ensures length.Some? ==> exists i :: 0 <= i < |headers| && FirstDeclared(headers, i) && length.value == Decimal(headers[i].value)
  {
    for i := 0 to |headers|
      invariant forall k :: 0 <= k < i ==> !Declares(headers[k])
    {
      if headers[i].name == "content-length" && IsDigits(headers[i].value) {
        assert FirstDeclared(headers, i);
        return Some(Decimal(headers[i].value));
      }
    }
    return None;
  }

  predicate FirstDeclared(headers: seq<Header>, i: nat) {
    i < |headers| && Declares(headers[i]) && forall k :: 0 <= k < i ==> !Declares(headers[k])
  }

  // ---- the streaming limit ----

  /** `received` is what the application got from its reads, `sent` what went out to the client. */
  datatype Stream = Stream(total: nat, rejected: bool, taken: nat, received: seq<Message>, sent: seq<Response>)

  const START := Stream(0, false, 0, [], [])

  function Receive(s: Stream, limit: nat, incoming: Incoming): Stream {
    if s.rejected then s.(received := s.received + [Disconnect])
    else
      var message := incoming(s.taken);
      var next := s.(taken := s.taken + 1, total := s.total + SizeOf(message));
      if next.total > limit && message.Request?
      then next.(rejected := true, sent := s.sent + Rejection(), received := s.received + [Disconnect])
      else next.(received := s.received + [message])
  }

  function Send(s: Stream, response: Response): Stream {
    if s.rejected then s else s.(sent := s.sent + [response])
  }

  class BodyLimitMiddleware {
    const limit: nat
    const incoming: Incoming
    var total: nat
    var rejected: bool
    var taken: nat
    var received: seq<Message>
    var sent: seq<Response>

    ghost function State(): Stream
      reads this
    {
      Stream(total, rejected, taken, received, sent)
    }

    constructor (limit: nat, incoming: Incoming)
      ensures this.limit == limit && this.incoming == incoming && State() == START
    {
      this.limit := limit;
      this.incoming := incoming;
      total, rejected, taken, received, sent := 0, false, 0, [], [];
    }

    method Reject()
      modifies this`sent
      ensures sent == old(sent) + Rejection()
      ensures sent == old(sent) + [Start(413), Body("request body too large")]
    {
      sent := sent + [Start(TOO_LARGE)];
      sent := sent + [Body("request body too large")];
    }

    /** The `receive` handed to the application. */
    method CountingReceive() returns (message: Message)
      modifies this
      ensures State() == Receive(old(State()), limit, incoming)
      ensures received == old(received) + [message]
    {
      if rejected {
        received := received + [Disconnect];
        return Disconnect;
      }
      message := incoming(taken);
      taken := taken + 1;
      if message.Request? {
        total := total + |message.body|;
        if total > limit {
          rejected := true;
          Reject();
          received := received + [Disconnect];
          return Disconnect;
        }
      }
      received := received + [message];
    }

    /** The `send` handed to the application. */
    method GuardedSend(response: Response)
      modifies this
      ensures State() == Send(old(State()), response)
    {
      if rejected {
        return;
      }
      sent := sent + [response];
    }

    /** A request whose declared length is over the limit is answered before the application runs. */
    method CheckDeclared(headers: seq<Header>) returns (run: bool)
      requires State() == START
      modifies this
      ensures run <==> forall i: nat :: FirstDeclared(headers, i) ==> Decimal(headers[i].value) <= limit
      ensures State() == if run then START else START.(sent := Rejection())
    {
      var declared := ContentLength(headers);
      if declared.Some? && declared.value > limit {
        Reject();
        OnlyOneFirst(headers);
        return false;
      }
      OnlyOneFirst(headers);
      return true;
    }
  }

  /** A single content-length header, however many zeros it starts with, lets the application run exactly when
      the number it prints is within the limit. */
  lemma DeclaredWithinLimit(zeros: nat, n: nat, limit: nat)
    ensures var headers := [Header("content-length", seq(zeros, _ => '0') + Digits(n))];
      (forall i: nat :: FirstDeclared(headers, i) ==> Decimal(headers[i].value) <= limit) <==> n <= limit
  {
    ReadsDecimal(zeros, n);
    var headers := [Header("content-length", seq(zeros, _ => '0') + Digits(n))];
    hide Decimal, Digits, IsDigits;
    assert FirstDeclared(headers, 0);
  }

  lemma OnlyOneFirst(headers: seq<Header>)
    ensures forall i: nat, j: nat :: FirstDeclared(headers, i) && FirstDeclared(headers, j) ==> i == j
    ensures forall i: nat :: FirstDeclared(headers, i) ==> i < |headers| && Declares(headers[i])
  {
  }

  /** One action of the application; which it takes may depend on everything it has received. */
  datatype Action = Read | Write(response: Response)

  function Act(s: Stream, action: Action, limit: nat, incoming: Incoming): Stream {
    match action
    case Read => Receive(s, limit, incoming)
    case Write(response) => Send(s, response)
  }

  function Run(actions: seq<Action>, limit: nat, incoming: Incoming): Stream {
    if actions == [] then START
    else Act(Run(actions[..|actions| - 1], limit, incoming), actions[|actions| - 1], limit, incoming)
  }

  // ---- the reference: cumulative sizes of the incoming messages ----

  /** The bytes of the first `n` messages. */
  function Size(incoming: Incoming, n: nat): nat {
    if n == 0 then 0 else Size(incoming, n - 1) + SizeOf(incoming(n - 1))
  }

  lemma {:induction false} SizeGrows(incoming: Incoming, n: nat, m: nat)
    requires n <= m
    ensures Size(incoming, n) <= Size(incoming, m)
    decreases m
  {
    if n < m {
      SizeGrows(incoming, n, m - 1);
    }
  }

  /** What the application should get from its n-th read: the n-th message while the body stays within
      the limit, and a disconnect ever after. */
  function Expected(limit: nat, incoming: Incoming, n: nat): Message {
    if Size(incoming, n + 1) <= limit then incoming(n) else Disconnect
  }

  function ReadsIn(actions: seq<Action>): nat {
    CountIf(actions, (action: Action) => action.Read?)
  }

  /** What the application sent before its read that overflowed, if any did. */
  function SentBefore(actions: seq<Action>, limit: nat, incoming: Incoming): seq<Response> {
    if actions == [] then []
    else
      var earlier, last := actions[..|actions| - 1], actions[|actions| - 1];
      SentBefore(earlier, limit, incoming) +
      (if last.Write? && Size(incoming, ReadsIn(earlier)) <= limit then [last.response] else [])
  }

  lemma ReadsInNext(actions: seq<Action>)
    requires actions != []
    ensures ReadsIn(actions) == ReadsIn(actions[..|actions| - 1]) + (if actions[|actions| - 1].Read? then 1 else 0)
  {
    var n := |actions| - 1;
    var isRead := (action: Action) => action.Read?;
    assert actions == actions[..n] + [actions[n]];
    CountIfAppend(actions[..n], [actions[n]], isRead);
  }

  ghost predicate Transduces(s: Stream, actions: seq<Action>, limit: nat, incoming: Incoming) {
    var n := ReadsIn(actions);
    && (s.rejected <==> Size(incoming, n) > limit)
    && |s.received| == n
    && (forall i :: 0 <= i < n ==> s.received[i] == Expected(limit, incoming, i))
    && s.sent == SentBefore(actions, limit, incoming) + (if s.rejected then Rejection() else [])
  }

  lemma {:induction false} RunTransduces(actions: seq<Action>, limit: nat, incoming: Incoming)
    ensures var s := Run(actions, limit, incoming);
      && Transduces(s, actions, limit, incoming)
      && (!s.rejected ==> s.taken == ReadsIn(actions) && s.total == Size(incoming, s.taken))
  {
    if actions != [] {
      var earlier := actions[..|actions| - 1];
      RunTransduces(earlier, limit, incoming);
      ReadsInNext(actions);
      SizeGrows(incoming, ReadsIn(earlier), ReadsIn(earlier) + 1);
    }
  }

  /** For every incoming stream and every reading pattern: the application receives exactly the longest
      prefix of messages whose body fits, then only disconnects; the client gets what the application sent
      up to the overflow and then the rejection, once, and nothing the application sends after it. */
  lemma StreamLimit(actions: seq<Action>, limit: nat, incoming: Incoming)
    ensures var s := Run(actions, limit, incoming);
      && |s.received| == ReadsIn(actions)
      && (forall n :: 0 <= n < |s.received| ==> s.received[n] == Expected(limit, incoming, n))
      && s.sent == SentBefore(actions, limit, incoming) +
                   (if Size(incoming, ReadsIn(actions)) > limit then Rejection() else [])
  {
    RunTransduces(actions, limit, incoming);
  }

  function BodySize(messages: seq<Message>): nat {
    if messages == [] then 0 else BodySize(messages[..|messages| - 1]) + SizeOf(messages[|messages| - 1])
  }

  lemma {:induction false} ExpectedWithin(messages: seq<Message>, limit: nat, incoming: Incoming)
    requires forall n :: 0 <= n < |messages| ==> messages[n] == Expected(limit, incoming, n)
    ensures BodySize(messages) <= limit && BodySize(messages) <= Size(incoming, |messages|)
  {
    if messages != [] {
      var n := |messages| - 1;
      ExpectedWithin(messages[..n], limit, incoming);
      assert messages[n] == Expected(limit, incoming, n);
    }
  }

  /** The application never holds more body than the limit, whatever lengths were declared. */
  lemma ApplicationNeverOverfed(actions: seq<Action>, limit: nat, incoming: Incoming)
    ensures BodySize(Run(actions, limit, incoming).received) <= limit
  {
    StreamLimit(actions, limit, incoming);
    ExpectedWithin(Run(actions, limit, incoming).received, limit, incoming);
  }

  /** The body in these messages, byte by byte. */
  function Bytes(messages: seq<Message>): seq<int> {
    if messages == [] then []
    else
      var last := messages[|messages| - 1];
      Bytes(messages[..|messages| - 1]) + (if last.Request? then last.body else [])
  }

  lemma {:induction false} SizesCountBytes(messages: seq<Message>)
    ensures BodySize(messages) == |Bytes(messages)|
  {
    if messages != [] {
      SizesCountBytes(messages[..|messages| - 1]);
    }
  }

  function FirstMessages(incoming: Incoming, n: nat): seq<Message> {
    seq(n, i requires 0 <= i < n => incoming(i))
  }

  lemma {:induction false} SizeIsBytes(incoming: Incoming, n: nat)
    ensures Size(incoming, n) == |Bytes(FirstMessages(incoming, n))|
  {
    if n > 0 {
      SizeIsBytes(incoming, n - 1);
      assert FirstMessages(incoming, n)[..n - 1] == FirstMessages(incoming, n - 1);
    }
  }

  /** In bytes: a read gets its message exactly while the body received with it is no longer than the limit (any
      other read gets a disconnect), so what the application holds never is. */
  lemma ReceivesWhileBytesFit(actions: seq<Action>, limit: nat, incoming: Incoming, n: nat)
    requires n < ReadsIn(actions)
    ensures var received := Run(actions, limit, incoming).received;
      && n < |received|
      && received[n] == (if |Bytes(FirstMessages(incoming, n + 1))| <= limit then incoming(n) else Disconnect)
      && |Bytes(received)| <= limit
  {
    StreamLimit(actions, limit, incoming);
    SizeIsBytes(incoming, n + 1);
    ApplicationNeverOverfed(actions, limit, incoming);
    SizesCountBytes(Run(actions, limit, incoming).received);
  }

  function Starts(sent: seq<Response>): nat {
    CountIf(sent, (response: Response) => response.Start?)
  }

  lemma StartsAdd(a: seq<Response>, b: seq<Response>)
    ensures Starts(a + b) == Starts(a) + Starts(b)
  {
    CountIfAppend(a, b, (response: Response) => response.Start?);
  }

  /** The client sees a second response start exactly when the body overflows after the application has
      already started its own response: the rejection does not check for that. */
  lemma SecondStartIffAlreadyStarted(actions: seq<Action>, limit: nat, incoming: Incoming)
    requires Starts(SentBefore(actions, limit, incoming)) <= 1
    ensures Starts(Run(actions, limit, incoming).sent) > 1 <==>
      Size(incoming, ReadsIn(actions)) > limit && Starts(SentBefore(actions, limit, incoming)) == 1
  {
    StreamLimit(actions, limit, incoming);
    StartsAdd(SentBefore(actions, limit, incoming), if Size(incoming, ReadsIn(actions)) > limit then Rejection() else []);
    assert Rejection()[1..] == [Body("request body too large")] && Rejection()[1..][1..] == [];
    assert Starts(Rejection()) == 1;
  }

  /** An application that answers before it has read the body shows the client both starts. */
  lemma SecondStartHappens(limit: nat, incoming: Incoming, ok: int)
    requires SizeOf(incoming(0)) > limit
    ensures Run([Write(Start(ok))] + [Read], limit, incoming).sent == [Start(ok)] + Rejection()
    ensures Starts(Run([Write(Start(ok))] + [Read], limit, incoming).sent) == 2
  {
    var actions := [Write(Start(ok))] + [Read];
    assert actions[..1] == [Write(Start(ok))] && [Write(Start(ok))][..0] == [];
    assert Run([Write(Start(ok))], limit, incoming) == START.(sent := [Start(ok)]);
    assert Rejection()[1..] == [Body("request body too large")] && Rejection()[1..][1..] == [];
    StartsAdd([Start(ok)], Rejection());
  }
}
