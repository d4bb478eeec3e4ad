/** The command AST, its printed form, and the parser for argument vectors. */
module Commands {
  import opened Wrappers
  import opened Bytes
  import opened Text
  import opened Resp
  import opened RespStream

  type Arg = seq<Byte>

  const U64_MAX: nat := 0xFFFF_FFFF_FFFF_FFFF

  datatype PutOptions = PutOptions(
    ex: Option<U64>, px: Option<U64>, exat: Option<U64>, pxat: Option<U64>,
    nx: bool, xx: bool, timestamp: Option<I64>)

  datatype ScanOptions = ScanOptions(matchPattern: Option<Arg>, count: Option<U32>)

  /** An absent user name inside `auth` means the default user. */
  datatype HelloAuth = HelloAuth(user: Option<Arg>, password: Arg)

  datatype HelloArgs = HelloArgs(protocolVersion: Option<U32>, auth: Option<HelloAuth>, clientName: Option<Arg>)

  datatype PartitionType = Primary | Backup

  datatype Command =
    | Ping(message: Option<Arg>)
    | Auth(username: Option<Arg>, password: Arg)
    | Hello(hello: HelloArgs)
    | Quit
    | Stats
    | DmPut(dmap: Arg, key: Arg, value: Arg, options: PutOptions)
    | DmGet(dmap: Arg, key: Arg)
    | DmDel(dmap: Arg, keys: seq<Arg>)
    | DmExpire(dmap: Arg, key: Arg, seconds: U64)
    | DmPexpire(dmap: Arg, key: Arg, milliseconds: U64)
    | DmIncr(dmap: Arg, key: Arg, delta: I64)
    | DmDecr(dmap: Arg, key: Arg, delta: I64)
    | DmGetPut(dmap: Arg, key: Arg, value: Arg)
    | DmDestroy(dmap: Arg)
    | DmScan(partitionId: U32, dmap: Arg, cursor: U64, scan: ScanOptions)
    | ClusterMembers
    | ClusterRoutingTable
    | ClusterReady
    | InternalUpdateRouting(table: Arg)
    | InternalLengthOfPart(partitionId: U32)
    | InternalGetWithTs(dmap: Arg, key: Arg)
    | InternalMoveFragment(partitionId: U32, partitionType: PartitionType, dmap: Arg, payload: Arg)
    | InternalPublish(channel: Arg, text: Arg)
    | Subscribe(channels: seq<Arg>)
    | Psubscribe(patterns: seq<Arg>)
    | Unsubscribe(channels: seq<Arg>)
    | Punsubscribe(patterns: seq<Arg>)
    | Publish(channel: Arg, text: Arg)
    | PubsubChannels(pattern: Option<Arg>)
    | PubsubNumsub(channels: seq<Arg>)
    | PubsubNumpat

  datatype CommandError =
    | NotAnArray
    | UnknownCommand(verb: Arg)
    | WrongArity
    | InvalidArgument
    | ConflictingOptions

  type CommandResult<T> = Result<T, CommandError>

  // ---- keywords ----

  /** The bytes of an ASCII literal. */
  function Ascii(s: string): (r: Arg)
    ensures |r| == |s|
  {
    seq(|s|, i requires 0 <= i < |s| => s[i] as int % 256)
  }

  function Uppercase(s: Arg): (r: Arg)
    ensures |r| == |s|
  {
    seq(|s|, i requires 0 <= i < |s| => Upper(s[i]))
  }

  /** ASCII case-insensitive comparison with an upper-case keyword. */
  predicate Is(arg: Arg, keyword: Arg) {
    Uppercase(arg) == keyword
  }

  datatype Verb =
    | VPing | VAuth | VHello | VQuit | VStats
    | VDmPut | VDmGet | VDmDel | VDmExpire | VDmPexpire | VDmIncr | VDmDecr | VDmGetPut | VDmDestroy | VDmScan
    | VClusterMembers | VClusterRoutingTable | VClusterReady
    | VUpdateRouting | VLengthOfPart | VGetWithTs | VMoveFragment | VInternalPublish
    | VSubscribe | VPsubscribe | VUnsubscribe | VPunsubscribe | VPublish | VPubsub

  function VerbName(v: Verb): string {
    match v
    case VPing => "PING"
    case VAuth => "AUTH"
    case VHello => "HELLO"
    case VQuit => "QUIT"
    case VStats => "STATS"
    case VDmPut => "DM.PUT"
    case VDmGet => "DM.GET"
    case VDmDel => "DM.DEL"
    case VDmExpire => "DM.EXPIRE"
    case VDmPexpire => "DM.PEXPIRE"
    case VDmIncr => "DM.INCR"
    case VDmDecr => "DM.DECR"
    case VDmGetPut => "DM.GETPUT"
    case VDmDestroy => "DM.DESTROY"
    case VDmScan => "DM.SCAN"
    case VClusterMembers => "CLUSTER.MEMBERS"
    case VClusterRoutingTable => "CLUSTER.ROUTINGTABLE"
    case VClusterReady => "CLUSTER.READY"
    case VUpdateRouting => "INTERNAL.NODE.UPDATEROUTING"
    case VLengthOfPart => "INTERNAL.NODE.LENGTHOFPART"
    case VGetWithTs => "INTERNAL.NODE.GETWITHTS"
    case VMoveFragment => "INTERNAL.NODE.MOVEFRAGMENT"
    case VInternalPublish => "INTERNAL.NODE.PUBLISH"
    case VSubscribe => "SUBSCRIBE"
    case VPsubscribe => "PSUBSCRIBE"
    case VUnsubscribe => "UNSUBSCRIBE"
    case VPunsubscribe => "PUNSUBSCRIBE"
    case VPublish => "PUBLISH"
    case VPubsub => "PUBSUB"
  }

  function VerbText(v: Verb): Arg {
    Ascii(VerbName(v))
  }

  /** Only the first 32 bytes of a verb are looked at. */
  function VerbPrefix(arg: Arg): Arg {
    if |arg| <= 32 then arg else arg[..32]
  }

  /** A client's first argument names a verb, in any case. */
  predicate Names(arg: Arg, v: Verb) {
    Is(VerbPrefix(arg), VerbText(v))
  }

  /** Verbs in the order in which the parser compares them. */
  function VerbFrom(text: Arg, vs: seq<Verb>): Option<Verb> {
    if vs == [] then None
    else if text == VerbText(vs[0]) then Some(vs[0])
    else VerbFrom(text, vs[1..])
  }

  function VerbOf(arg: Arg): Option<Verb> {
    VerbFrom(Uppercase(VerbPrefix(arg)), VERBS)
  }

  const VERBS: seq<Verb> := [
    VPing, VAuth, VHello, VQuit, VStats, VDmPut, VDmGet, VDmDel, VDmExpire, VDmPexpire, VDmIncr, VDmDecr,
    VDmGetPut, VDmDestroy, VDmScan, VClusterMembers, VClusterRoutingTable, VClusterReady, VUpdateRouting,
    VLengthOfPart, VGetWithTs, VMoveFragment, VInternalPublish, VSubscribe, VPsubscribe, VUnsubscribe,
    VPunsubscribe, VPublish, VPubsub]

  // ---- printing ----

  function WithArg(args: seq<Arg>, v: Option<Arg>): seq<Arg> {
    if v.None? then args else args + [v.value]
  }

  function WithOption(args: seq<Arg>, keyword: Arg, v: Option<Arg>): seq<Arg> {
    if v.None? then args else args + [keyword, v.value]
  }

  function WithFlag(args: seq<Arg>, keyword: Arg, on: bool): seq<Arg> {
    if on then args + [keyword] else args
  }

  function Number(v: Option<int>): Option<Arg> {
    if v.None? then None else Some(IntText(v.value))
  }

  function WithExpiries(args: seq<Arg>, o: PutOptions): seq<Arg> {
    var a1 := WithOption(args, Ascii("EX"), Number(o.ex));
    var a2 := WithOption(a1, Ascii("PX"), Number(o.px));
    var a3 := WithOption(a2, Ascii("EXAT"), Number(o.exat));
    WithOption(a3, Ascii("PXAT"), Number(o.pxat))
  }

  function WithFlagsAndTs(args: seq<Arg>, o: PutOptions): seq<Arg> {
    var a1 := WithFlag(args, Ascii("NX"), o.nx);
    var a2 := WithFlag(a1, Ascii("XX"), o.xx);
    WithOption(a2, Ascii("TS"), Number(o.timestamp))
  }

  function WithPutOptions(args: seq<Arg>, o: PutOptions): seq<Arg> {
    WithFlagsAndTs(WithExpiries(args, o), o)
  }

  function WithScanOptions(args: seq<Arg>, o: ScanOptions): seq<Arg> {
    var a1 := WithOption(args, Ascii("MATCH"), o.matchPattern);
    WithOption(a1, Ascii("COUNT"), Number(o.count))
  }

  function WithAuth(args: seq<Arg>, auth: Option<HelloAuth>): seq<Arg> {
    if auth.None? then args
    else
      var user := if auth.value.user.None? then Ascii("default") else auth.value.user.value;
      args + [Ascii("AUTH"), user, auth.value.password]
  }

  function HelloToArgs(h: HelloArgs): seq<Arg> {
    var a1 := WithArg([VerbText(VHello)], Number(h.protocolVersion));
    var a2 := WithAuth(a1, h.auth);
    WithOption(a2, Ascii("SETNAME"), h.clientName)
  }

  function TypeNumber(t: PartitionType): nat {
    if t == Primary then 0 else 1
  }

  function ToArgs(c: Command): seq<Arg> {
    match c
    case Ping(m) => WithArg([VerbText(VPing)], m)
    case Auth(u, p) => WithArg([VerbText(VAuth)], u) + [p]
    case Hello(h) => HelloToArgs(h)
    case Quit => [VerbText(VQuit)]
    case Stats => [VerbText(VStats)]
    case DmPut(d, k, v, o) => WithPutOptions([VerbText(VDmPut), d, k, v], o)
    case DmGet(d, k) => [VerbText(VDmGet), d, k]
    case DmDel(d, ks) => [VerbText(VDmDel), d] + ks
    case DmExpire(d, k, n) => [VerbText(VDmExpire), d, k, IntText(n)]
    case DmPexpire(d, k, n) => [VerbText(VDmPexpire), d, k, IntText(n)]
    case DmIncr(d, k, n) => [VerbText(VDmIncr), d, k, IntText(n)]
    case DmDecr(d, k, n) => [VerbText(VDmDecr), d, k, IntText(n)]
    case DmGetPut(d, k, v) => [VerbText(VDmGetPut), d, k, v]
    case DmDestroy(d) => [VerbText(VDmDestroy), d]
    case DmScan(p, d, n, o) => WithScanOptions([VerbText(VDmScan), IntText(p), d, IntText(n)], o)
    case ClusterMembers => [VerbText(VClusterMembers)]
    case ClusterRoutingTable => [VerbText(VClusterRoutingTable)]
    case ClusterReady => [VerbText(VClusterReady)]
    case InternalUpdateRouting(t) => [VerbText(VUpdateRouting), t]
    case InternalLengthOfPart(p) => [VerbText(VLengthOfPart), IntText(p)]
    case InternalGetWithTs(d, k) => [VerbText(VGetWithTs), d, k]
    case InternalMoveFragment(p, t, d, b) => [VerbText(VMoveFragment), IntText(p), IntText(TypeNumber(t)), d, b]
    case InternalPublish(ch, m) => [VerbText(VInternalPublish), ch, m]
    case Subscribe(cs) => [VerbText(VSubscribe)] + cs
    case Psubscribe(ps) => [VerbText(VPsubscribe)] + ps
    case Unsubscribe(cs) => [VerbText(VUnsubscribe)] + cs
    case Punsubscribe(ps) => [VerbText(VPunsubscribe)] + ps
    case Publish(ch, m) => [VerbText(VPublish), ch, m]
    case PubsubChannels(p) => WithArg([VerbText(VPubsub), Ascii("CHANNELS")], p)
    case PubsubNumsub(cs) => [VerbText(VPubsub), Ascii("NUMSUB")] + cs
    case PubsubNumpat => [VerbText(VPubsub), Ascii("NUMPAT")]
  }

  function Bulks(args: seq<Arg>): (r: seq<Frame>)
    ensures |r| == |args|
  {
    seq(|args|, i requires 0 <= i < |args| => Bulk(args[i]))
  }

  function ToFrame(c: Command): Frame {
    Array(Bulks(ToArgs(c)))
  }

  // ---- options ----

  datatype PutOption = Ex | Px | Exat | Pxat | Nx | Xx | Ts

  function PutOptionText(k: PutOption): Arg {
    match k
    case Ex => Ascii("EX")
    case Px => Ascii("PX")
    case Exat => Ascii("EXAT")
    case Pxat => Ascii("PXAT")
    case Nx => Ascii("NX")
    case Xx => Ascii("XX")
    case Ts => Ascii("TS")
  }

  function PutOptionOf(tok: Arg): Option<PutOption> {
    if Is(tok, Ascii("EX")) then Some(Ex)
    else if Is(tok, Ascii("PX")) then Some(Px)
    else if Is(tok, Ascii("EXAT")) then Some(Exat)
    else if Is(tok, Ascii("PXAT")) then Some(Pxat)
    else if Is(tok, Ascii("NX")) then Some(Nx)
    else if Is(tok, Ascii("XX")) then Some(Xx)
    else if Is(tok, Ascii("TS")) then Some(Ts)
    else None
  }

  predicate IsFlag(k: PutOption) {
    k == Nx || k == Xx
  }

  predicate InRangeOf(k: PutOption, n: int) {
    if k == Ts then I64_MIN <= n <= I64_MAX else 0 <= n <= U64_MAX
  }

  function WithNumber(o: PutOptions, k: PutOption, v: Option<int>): PutOptions
    requires !IsFlag(k)
    requires v.Some? ==> InRangeOf(k, v.value)
  {
    match k
    case Ex => o.(ex := v)
    case Px => o.(px := v)
    case Exat => o.(exat := v)
    case Pxat => o.(pxat := v)
    case Ts => o.(timestamp := v)
  }

  function NumberOf(o: PutOptions, k: PutOption): Option<int>
    requires !IsFlag(k)
  {
    match k
    case Ex => o.ex
    case Px => o.px
    case Exat => o.exat
    case Pxat => o.pxat
    case Ts => o.timestamp
  }

  function PutNumber(k: PutOption, v: Arg): (r: Option<int>)
    ensures r.Some? ==> InRangeOf(k, r.value)
  {
    if k == Ts then ParseInt(v, I64_MIN, I64_MAX) else ParseInt(v, 0, U64_MAX)
  }

  const NO_PUT_OPTIONS := PutOptions(None, None, None, None, false, false, None)

  /** One valued option: a repeated option is reported before a bad number. */
  function SetNumber(o: PutOptions, k: PutOption, v: Arg): CommandResult<PutOptions>
    requires !IsFlag(k)
  {
    if NumberOf(o, k).Some? then Err(ConflictingOptions)
    else if PutNumber(k, v).None? then Err(InvalidArgument)
    else Ok(WithNumber(o, k, PutNumber(k, v)))
  }

  /** The options read from argument `i` on. */
  function ReadPutOptions(args: seq<Arg>, i: nat, o: PutOptions): CommandResult<PutOptions>
    requires i <= |args|
    decreases |args| - i
  {
    if i == |args| then Ok(o)
    else match PutOptionOf(args[i])
      case None => Err(InvalidArgument)
      case Some(Nx) => ReadPutOptions(args, i + 1, o.(nx := true))
      case Some(Xx) => ReadPutOptions(args, i + 1, o.(xx := true))
      case Some(k) =>
        if i + 1 == |args| then Err(InvalidArgument)
        else
          var next := SetNumber(o, k, args[i + 1]);
          if next.Err? then next else ReadPutOptions(args, i + 2, next.value)
  }

  function Count(b: bool): nat {
    if b then 1 else 0
  }

  function ExpiryCount(o: PutOptions): nat {
    Count(o.ex.Some?) + Count(o.px.Some?) + Count(o.exat.Some?) + Count(o.pxat.Some?)
  }

  /** At most one expiry, and not both conditions. */
  predicate Compatible(o: PutOptions) {
    !(o.nx && o.xx) && ExpiryCount(o) <= 1
  }

  const NO_SCAN_OPTIONS := ScanOptions(None, None)

  function ReadScanOptions(args: seq<Arg>, i: nat, o: ScanOptions): CommandResult<ScanOptions>
    requires i <= |args|
    decreases |args| - i
  {
    if i == |args| then Ok(o)
    else if Is(args[i], Ascii("MATCH")) then
      if i + 1 == |args| then Err(InvalidArgument)
      else if o.matchPattern.Some? then Err(ConflictingOptions)
      else ReadScanOptions(args, i + 2, o.(matchPattern := Some(args[i + 1])))
    else if Is(args[i], Ascii("COUNT")) then
      if i + 1 == |args| then Err(InvalidArgument)
      else if o.count.Some? then Err(ConflictingOptions)
      else
        var n := ParseInt(args[i + 1], 0, U32_MAX);
        if n.None? then Err(InvalidArgument) else ReadScanOptions(args, i + 2, o.(count := n))
    else Err(InvalidArgument)
  }

  function ReadHelloClauses(args: seq<Arg>, i: nat, h: HelloArgs): CommandResult<HelloArgs>
    requires i <= |args|
    decreases |args| - i
  {
    if i == |args| then Ok(h)
    else if Is(args[i], Ascii("AUTH")) then
      if i + 2 >= |args| then Err(InvalidArgument)
      else ReadHelloClauses(args, i + 3, h.(auth := Some(HelloAuth(Some(args[i + 1]), args[i + 2]))))
    else if Is(args[i], Ascii("SETNAME")) then
      if i + 1 == |args| then Err(InvalidArgument)
      else ReadHelloClauses(args, i + 2, h.(clientName := Some(args[i + 1])))
    else Err(InvalidArgument)
  }

  predicate HelloKeyword(arg: Arg) {
    Is(arg, Ascii("AUTH")) || Is(arg, Ascii("SETNAME"))
  }

  const NO_HELLO := HelloArgs(None, None, None)

  function ParseHello(args: seq<Arg>): CommandResult<Command>
    requires args != []
  {
    var r :=
      if |args| > 1 && !HelloKeyword(args[1]) then
        var n := ParseInt(args[1], 0, U32_MAX);
        if n.None? then Err(InvalidArgument) else ReadHelloClauses(args, 2, NO_HELLO.(protocolVersion := n))
      else ReadHelloClauses(args, 1, NO_HELLO);
    if r.Err? then Err(r.error) else Ok(Hello(r.value))
  }

  function ParseDmPut(args: seq<Arg>): CommandResult<Command> {
    if |args| < 4 then Err(WrongArity)
    else
      var o := ReadPutOptions(args, 4, NO_PUT_OPTIONS);
      if o.Err? then Err(o.error)
      else if !Compatible(o.value) then Err(ConflictingOptions)
      else Ok(DmPut(args[1], args[2], args[3], o.value))
  }

  function ParseDmScan(args: seq<Arg>): CommandResult<Command> {
    if |args| < 4 then Err(WrongArity)
    else
      var part, cursor := ParseInt(args[1], 0, U32_MAX), ParseInt(args[3], 0, U64_MAX);
      if part.None? || cursor.None? then Err(InvalidArgument)
      else
        var o := ReadScanOptions(args, 4, NO_SCAN_OPTIONS);
        if o.Err? then Err(o.error) else Ok(DmScan(part.value, args[2], cursor.value, o.value))
  }

  function ParsePubsub(args: seq<Arg>): CommandResult<Command> {
    if |args| < 2 then Err(WrongArity)
    else if Is(args[1], Ascii("CHANNELS")) then
      if |args| > 3 then Err(WrongArity)
      else Ok(PubsubChannels(if |args| == 3 then Some(args[2]) else None))
    else if Is(args[1], Ascii("NUMSUB")) then Ok(PubsubNumsub(args[2..]))
    else if Is(args[1], Ascii("NUMPAT")) then
      if |args| > 2 then Err(WrongArity) else Ok(PubsubNumpat)
    else Err(InvalidArgument)
  }

  function ParseMoveFragment(args: seq<Arg>): CommandResult<Command>
    requires |args| == 5
  {
    var part, kind := ParseInt(args[1], 0, U32_MAX), ParseInt(args[2], 0, 255);
    if part.None? || kind.None? || kind.value > 1 then Err(InvalidArgument)
    else Ok(InternalMoveFragment(part.value, if kind.value == 0 then Primary else Backup, args[3], args[4]))
  }

  // ---- the parser ----

  /** How many arguments after the verb are accepted: at least, and at most if bounded. */
  function Arity(v: Verb): (nat, Option<nat>) {
    match v
    case VPing => (0, Some(1))
    case VAuth => (1, Some(2))
    case VDmPut => (3, None)
    case VDmScan => (3, None)
    case VDmDel => (2, None)
    case VSubscribe => (1, None)
    case VPsubscribe => (1, None)
    case VPubsub => (1, None)
    case VHello => (0, None)
    case VUnsubscribe => (0, None)
    case VPunsubscribe => (0, None)
    case VQuit => (0, Some(0))
    case VStats => (0, Some(0))
    case VClusterMembers => (0, Some(0))
    case VClusterRoutingTable => (0, Some(0))
    case VClusterReady => (0, Some(0))
    case VDmDestroy => (1, Some(1))
    case VUpdateRouting => (1, Some(1))
    case VLengthOfPart => (1, Some(1))
    case VDmGet => (2, Some(2))
    case VGetWithTs => (2, Some(2))
    case VInternalPublish => (2, Some(2))
    case VPublish => (2, Some(2))
    case VDmExpire => (3, Some(3))
    case VDmPexpire => (3, Some(3))
    case VDmIncr => (3, Some(3))
    case VDmDecr => (3, Some(3))
    case VDmGetPut => (3, Some(3))
    case VMoveFragment => (4, Some(4))
  }

  predicate ArityFits(v: Verb, n: nat) {
    Arity(v).0 <= n && (Arity(v).1.Some? ==> n <= Arity(v).1.value)
  }

  /** `(dmap, key, number)` commands. */
  function ParseNumbered(v: Verb, args: seq<Arg>): CommandResult<Command>
    requires |args| == 4
  {
    if v == VDmExpire || v == VDmPexpire then
      var n := ParseInt(args[3], 0, U64_MAX);
      if n.None? then Err(InvalidArgument)
      else Ok(if v == VDmExpire then DmExpire(args[1], args[2], n.value) else DmPexpire(args[1], args[2], n.value))
    else
      var n := ParseInt(args[3], I64_MIN, I64_MAX);
      if n.None? then Err(InvalidArgument)
      else Ok(if v == VDmIncr then DmIncr(args[1], args[2], n.value) else DmDecr(args[1], args[2], n.value))
  }

  function ParseVerb(v: Verb, args: seq<Arg>): CommandResult<Command>
    requires args != []
  {
    if !ArityFits(v, |args| - 1) then Err(WrongArity)
    else match v
      case VPing => Ok(Ping(if |args| == 2 then Some(args[1]) else None))
      case VAuth => Ok(if |args| == 3 then Auth(Some(args[1]), args[2]) else Auth(None, args[1]))
      case VHello => ParseHello(args)
      case VQuit => Ok(Quit)
      case VStats => Ok(Stats)
      case VDmPut => ParseDmPut(args)
      case VDmGet => Ok(DmGet(args[1], args[2]))
      case VDmDel => Ok(DmDel(args[1], args[2..]))
      case VDmGetPut => Ok(DmGetPut(args[1], args[2], args[3]))
      case VDmDestroy => Ok(DmDestroy(args[1]))
      case VDmScan => ParseDmScan(args)
      case VClusterMembers => Ok(ClusterMembers)
      case VClusterRoutingTable => Ok(ClusterRoutingTable)
      case VClusterReady => Ok(ClusterReady)
      case VUpdateRouting => Ok(InternalUpdateRouting(args[1]))
      case VLengthOfPart =>
        var p := ParseInt(args[1], 0, U32_MAX);
        if p.None? then Err(InvalidArgument) else Ok(InternalLengthOfPart(p.value))
      case VGetWithTs => Ok(InternalGetWithTs(args[1], args[2]))
      case VMoveFragment => ParseMoveFragment(args)
      case VInternalPublish => Ok(InternalPublish(args[1], args[2]))
      case VSubscribe => Ok(Subscribe(args[1..]))
      case VPsubscribe => Ok(Psubscribe(args[1..]))
      case VUnsubscribe => Ok(Unsubscribe(args[1..]))
      case VPunsubscribe => Ok(Punsubscribe(args[1..]))
      case VPublish => Ok(Publish(args[1], args[2]))
      case VPubsub => ParsePubsub(args)
      case _ => ParseNumbered(v, args)
  }

  function ParseArgs(args: seq<Arg>): CommandResult<Command>
    requires args != []
  {
    var v := VerbOf(args[0]);
    if v.None? then Err(UnknownCommand(args[0])) else ParseVerb(v.value, args)
  }

  /** The arguments, or the error the first item that is not a bulk string causes. */
  function ArgsOf(items: seq<Frame>): (r: CommandResult<seq<Arg>>)
    ensures r.Ok? ==> |r.value| == |items|
  {
    if items == [] then Ok([])
    else
      var before := ArgsOf(items[..|items| - 1]);
      if before.Err? then before
      else match items[|items| - 1]
        case Bulk(b) => Ok(before.value + [b])
        case NullBulk => Err(InvalidArgument)
        case _ => Err(NotAnArray)
  }

  function Parse(f: Frame): CommandResult<Command> {
    if !f.Array? || f.items == [] then Err(NotAnArray)
    else
      var args := ArgsOf(f.items);
      if args.Err? then Err(args.error) else ParseArgs(args.value)
  }
}
