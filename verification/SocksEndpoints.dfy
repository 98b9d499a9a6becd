/** The two ends of the SOCKS5 handshake, read and write by read and write. */
module SocksEndpoints {
  import opened ByteOrder
  import opened Options
  import opened SocksAddress

  const VERSION: Byte := 5
  const AUTH_VERSION: Byte := 1
  const METHOD_NONE: Byte := 0
  const METHOD_USER: Byte := 2
  const METHOD_DENY: Byte := 255

  const CONNECT: Byte := 1
  const UDP_ASC: Byte := 3
  const FWD_UDP: Byte := 5

  const SUCC: Byte := 0
  const FAIL: Byte := 1
  const HOST: Byte := 4
  const IMPL: Byte := 7
  const ADDR: Byte := 8

  datatype Creds = Creds(user: Bytes, pass: Bytes)

  /** A client: what it was told to ask for, and whether it then accepts the address in
      a reply. It has credentials only if both parts were set. */
  datatype Client = Client(creds: Option<Creds>, cmd: Byte, addr: Addr, pipeline: bool, accept: Addr -> bool)

  /** A server: its users, if it has an authenticator, and what the system would answer. */
  datatype Server = Server(
    users: Option<map<Bytes, Bytes>>,
    resolve: (Bytes, Bytes) -> Option<Sock>,
    connect: Sock -> bool,
    associate: Sock -> Bound,
    forward: bool)

  datatype Bound = Bound(ok: bool, bound: Sock)

  /** Whether the handshake returned success, and the request a server read. */
  datatype Verdict = Verdict(ok: bool, asked: Option<Asked>)
  datatype Asked = Asked(cmd: Byte, addr: Addr)

  datatype ClientAt =
    | WriteMethods | ReadMethod | WriteCreds | ReadCreds | WriteRequest | ReadReply
    | ReadBound(atype: Byte)

  datatype ServerAt =
    | ReadGreeting
    | ReadMethods(count: Byte)
    | WriteMethod(choice: Byte)
    | ReadUserHead
    | ReadUserName(nlen: Byte)
    | ReadPassword(name: Bytes, plen: Byte)
    | WriteUser(ok: bool)
    | ReadRequest
    | ReadAddress(head: Bytes)
    | WriteReply(rep: Byte, bound: Sock, asked: Option<Asked>)

  datatype End = Over(verdict: Verdict) | C(client: Client, cat: ClientAt) | S(server: Server, sat: ServerAt)

  datatype Act = Stop | Put(bytes: Bytes) | Take(n: nat)

  /** What an unsigned byte keeps of a length. */
  function Cut(s: Bytes): (r: Bytes)
    ensures |r| < 256 && (|s| < 256 ==> r == s) && r <= s && (|s| - |r|) % 256 == 0
  {
    s[..|s| % 256]
  }

  function MethodsOf(c: Client): Bytes {
    if c.creds.None? then [VERSION, 1, METHOD_NONE] else [VERSION, 1, METHOD_USER]
  }

  function CredsOf(c: Client): Bytes {
    if c.creds.None? then [] else
      var u, p := Cut(c.creds.value.user), Cut(c.creds.value.pass);
      [AUTH_VERSION, |u|] + u + [|p|] + p
  }

  function RequestOf(c: Client): Bytes {
    [VERSION, c.cmd, 0] + Encode(c.addr)
  }

  function ReplyOf(rep: Byte, bound: Sock): Bytes {
    [VERSION, rep, 0] + Encode(FromSock(bound))
  }

  const NO_SOCK: Sock := Sock([0, 0, 0, 0, 0, 0, 0, 0, 0, 0, 0, 0, 0, 0, 0, 0], [0, 0])

  /** The next read or write of an end. */
  function ActOf(e: End): Act {
    match e
    case Over(_) => Stop
    case C(c, at) =>
      (match at
       case WriteMethods => Put(MethodsOf(c))
       case ReadMethod => Take(2)
       case WriteCreds => Put(CredsOf(c))
       case ReadCreds => Take(2)
       case WriteRequest => Put(RequestOf(c))
       case ReadReply => Take(4)
       case ReadBound(atype) => Take(if atype == IPV4 then 6 else 18))
    case S(s, at) =>
      (match at
       case ReadGreeting => Take(2)
       case ReadMethods(count) => Take(count)
       case WriteMethod(choice) => Put([VERSION, choice])
       case ReadUserHead => Take(2)
       case ReadUserName(nlen) => Take(nlen + 1)
       case ReadPassword(_, plen) => Take(plen)
       case WriteUser(ok) => Put(if ok then [AUTH_VERSION, 0] else [AUTH_VERSION, 255])
       case ReadRequest => Take(5)
       case ReadAddress(head) => Take(AddressLeft(head))
       case WriteReply(rep, bound, _) => Put(ReplyOf(rep, bound)))
  }

  const FAILED: End := Over(Verdict(false, None))

  /** What is left of an address after the first five bytes of a request. */
  function AddressLeft(head: Bytes): nat {
    if |head| == 5 && EncodedLength(head[3], head[4]).Some? then EncodedLength(head[3], head[4]).value - 2 else 0
  }

  function ToRequest(c: Client): End {
    if c.cmd in {CONNECT, UDP_ASC, FWD_UDP} then C(c, WriteRequest) else FAILED
  }

  /** An end after its write. */
  function Sent(e: End): End {
    match e
    case C(c, at) =>
      (match at
       case WriteMethods => C(c, if c.pipeline then WriteCreds else ReadMethod)
       case WriteCreds => if c.pipeline then ToRequest(c) else C(c, ReadCreds)
       case WriteRequest => C(c, if c.pipeline then ReadMethod else ReadReply)
       case _ => e)
    case S(s, at) =>
      (match at
       case WriteMethod(choice) =>
         if choice == METHOD_NONE then S(s, ReadRequest) else if choice == METHOD_USER then S(s, ReadUserHead) else FAILED
       case WriteUser(ok) => if ok then S(s, ReadRequest) else FAILED
       case WriteReply(rep, _, asked) => Over(Verdict(rep == SUCC, asked))
       case _ => e)
    case Over(_) => e
  }

  /** A client after its read. */
  function ClientGot(c: Client, at: ClientAt, b: Bytes): End
    requires ActOf(C(c, at)) == Take(|b|)
  {
    match at
    case ReadMethod =>
      if b[0] != VERSION then FAILED
      else if b[1] == METHOD_USER then C(c, if c.pipeline then ReadCreds else WriteCreds)
      else if b[1] == METHOD_NONE then (if c.pipeline then C(c, ReadReply) else ToRequest(c))
      else FAILED
    case ReadCreds =>
      if b[0] != AUTH_VERSION || b[1] != SUCC then FAILED
      else if c.pipeline then C(c, ReadReply) else ToRequest(c)
    case ReadReply =>
      if b[0] != VERSION || b[1] != SUCC || (b[3] != IPV4 && b[3] != IPV6) then FAILED else C(c, ReadBound(b[3]))
    case ReadBound(atype) =>
      if c.accept(if atype == IPV4 then V4(b[..4], b[4..]) else V6(b[..16], b[16..])) then Over(Verdict(true, None)) else FAILED
    case _ => FAILED
  }

  /** Whether the users include that name with that password. */
  predicate Knows(s: Server, name: Bytes, pass: Bytes) {
    s.users.Some? && name in s.users.value && s.users.value[name] == pass
  }

  /** What a server does about a request it has read. */
  function Serve(s: Server, asked: Asked): ServerAt {
    var target := IntoSock(asked.addr, s.resolve);
    if target.None? then WriteReply(ADDR, NO_SOCK.(port := asked.addr.port), Some(asked))
    else if asked.cmd == CONNECT then WriteReply(if s.connect(target.value) then SUCC else HOST, target.value, Some(asked))
    else if asked.cmd == UDP_ASC then Associate(s.associate(target.value), asked)
    else if asked.cmd == FWD_UDP then WriteReply(if s.forward then SUCC else FAIL, target.value, Some(asked))
    else WriteReply(IMPL, target.value, Some(asked))
  }

  function Associate(r: Bound, asked: Asked): ServerAt {
    WriteReply(if r.ok then SUCC else FAIL, r.bound, Some(asked))
  }

  /** A server after its read. */
  function ServerGot(s: Server, at: ServerAt, b: Bytes): End
    requires ActOf(S(s, at)) == Take(|b|)
  {
    match at
    case ReadGreeting => S(s, if b[0] != VERSION then WriteMethod(METHOD_DENY) else ReadMethods(b[1]))
    case ReadMethods(_) =>
      var wanted := if s.users.Some? then METHOD_USER else METHOD_NONE;
      S(s, WriteMethod(if wanted in b then wanted else METHOD_DENY))
    case ReadUserHead => S(s, if b[0] != AUTH_VERSION || b[1] == 0 then WriteUser(false) else ReadUserName(b[1]))
    case ReadUserName(nlen) => S(s, if b[nlen] == 0 then WriteUser(false) else ReadPassword(b[..nlen], b[nlen]))
    case ReadPassword(name, _) => S(s, WriteUser(Knows(s, name, b)))
    case ReadRequest =>
      if b[0] != VERSION then S(s, WriteReply(FAIL, NO_SOCK, None))
      else if EncodedLength(b[3], b[4]).None? then S(s, WriteReply(ADDR, NO_SOCK, None))
      else S(s, ReadAddress(b))
    case ReadAddress(head) =>
      if |head| == 5 && EncodedLength(head[3], head[4]).Some? then
        S(s, Serve(s, Asked(head[1], Decode(head[3..] + b))))
      else FAILED
    case _ => FAILED
  }

  /** An end whose peer closed before a read was complete. */
  function Short(e: End): End {
    match e
    case S(s, ReadGreeting) => S(s, WriteMethod(METHOD_DENY))
    case S(s, ReadMethods(_)) => S(s, WriteMethod(METHOD_DENY))
    case S(s, ReadUserHead) => S(s, WriteUser(false))
    case S(s, ReadUserName(_)) => S(s, WriteUser(false))
    case S(s, ReadPassword(_, _)) => S(s, WriteUser(false))
    case S(s, ReadAddress(_)) => S(s, WriteReply(ADDR, NO_SOCK, None))
    case _ => FAILED
  }

  function Got(e: End, b: Bytes): End
    requires ActOf(e) == Take(|b|)
  {
    if e.C? then ClientGot(e.client, e.cat, b) else ServerGot(e.server, e.sat, b)
  }

  /** How many more reads and writes an end can make. */
  function Left(e: End): nat {
    match e
    case Over(_) => 0
    case C(c, at) =>
      (match at
       case WriteMethods => 20
       case ReadMethod => if c.pipeline then 16 else 19
       case WriteCreds => 18
       case ReadCreds => if c.pipeline then 15 else 17
       case WriteRequest => if c.pipeline then 17 else 16
       case ReadReply => 14
       case ReadBound(_) => 13)
    case S(_, at) =>
      (match at
       case ReadGreeting => 10
       case ReadMethods(_) => 9
       case WriteMethod(_) => 8
       case ReadUserHead => 7
       case ReadUserName(_) => 6
       case ReadPassword(_, _) => 5
       case WriteUser(_) => 4
       case ReadRequest => 3
       case ReadAddress(_) => 2
       case WriteReply(_, _, _) => 1)
  }

  lemma Progress(e: End, b: Bytes)
    ensures ActOf(e).Put? ==> Left(Sent(e)) < Left(e)
    ensures ActOf(e) == Take(|b|) ==> Left(Got(e, b)) < Left(e)
    ensures ActOf(e).Take? ==> Left(Short(e)) < Left(e)
  {
  }
}
