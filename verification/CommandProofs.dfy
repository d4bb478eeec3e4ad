/** Printing a command and parsing it back, over the wire and through any chunking. */
module CommandProofs {
  import opened Wrappers
  import opened Bytes
  import opened Text
  import opened Resp
  import opened RespProofs
  import opened RespStream
  import opened RespChunks
  import opened Commands

  // ---- verbs ----

  /** Tells the verbs apart by their length and one byte. */
  function Classify(t: string): Verb {
    if |t| == 4 then (if t[0] == 'P' then VPing else if t[0] == 'A' then VAuth else VQuit)
    else if |t| == 5 then (if t[0] == 'H' then VHello else VStats)
    else if |t| == 6 then
      (if t[3] == 'P' then VDmPut else if t[3] == 'G' then VDmGet else if t[3] == 'D' then VDmDel else VPubsub)
    else if |t| == 7 then
      (if t[3] == 'I' then VDmIncr else if t[3] == 'D' then VDmDecr else if t[3] == 'S' then VDmScan else VPublish)
    else if |t| == 9 then (if t[3] == 'E' then VDmExpire else if t[3] == 'G' then VDmGetPut else VSubscribe)
    else if |t| == 10 then (if t[3] == 'P' then VDmPexpire else if t[3] == 'D' then VDmDestroy else VPsubscribe)
    else if |t| == 11 then VUnsubscribe
    else if |t| == 12 then VPunsubscribe
    else if |t| == 13 then VClusterReady
    else if |t| == 15 then VClusterMembers
    else if |t| == 20 then VClusterRoutingTable
    else if |t| == 21 then VInternalPublish
    else if |t| == 23 then VGetWithTs
    else if |t| == 26 then (if t[14] == 'L' then VLengthOfPart else VMoveFragment)
    else VUpdateRouting
  }

  datatype Family = Utility | Data | Cluster | Internal | PubSub

  function FamilyOf(v: Verb): Family {
    match v
    case VPing => Utility case VAuth => Utility case VHello => Utility case VQuit => Utility case VStats => Utility
    case VClusterMembers => Cluster case VClusterRoutingTable => Cluster case VClusterReady => Cluster
    case VInternalPublish => Cluster
    case VUpdateRouting => Internal case VLengthOfPart => Internal case VGetWithTs => Internal
    case VMoveFragment => Internal
    case VSubscribe => PubSub case VPsubscribe => PubSub case VUnsubscribe => PubSub
    case VPunsubscribe => PubSub case VPublish => PubSub case VPubsub => PubSub
    case _ => Data
  }

  /** A verb's name is told apart by `Classify`, fits the verb buffer and has no lower-case letter. */
  ghost predicate Spelled(v: Verb) {
    var s := VerbName(v);
    Classify(s) == v && |s| <= 32 && forall i | 0 <= i < |s| :: s[i] < 'a'
  }

  lemma {:induction false} UtilityVerbSpelled(v: Verb)
    requires FamilyOf(v) == Utility
    ensures Spelled(v)
  {
  }

  lemma {:induction false} DataVerbSpelled(v: Verb)
    requires FamilyOf(v) == Data
    ensures Spelled(v)
  {
  }

  lemma {:induction false} ClusterVerbSpelled(v: Verb)
    requires FamilyOf(v) == Cluster
    ensures Spelled(v)
  {
  }

  lemma {:induction false} InternalVerbSpelled(v: Verb)
    requires FamilyOf(v) == Internal
    ensures Spelled(v)
  {
  }

  lemma {:induction false} PubSubVerbSpelled(v: Verb)
    requires FamilyOf(v) == PubSub
    ensures Spelled(v)
  {
  }

  lemma {:induction false} VerbSpelled(v: Verb)
    ensures Spelled(v)
  {
    match FamilyOf(v)
    case Utility => UtilityVerbSpelled(v);
    case Data => DataVerbSpelled(v);
    case Cluster => ClusterVerbSpelled(v);
    case Internal => InternalVerbSpelled(v);
    case PubSub => PubSubVerbSpelled(v);
  }

  lemma {:induction false} AsciiInjective(s: string, t: string)
    requires Ascii(s) == Ascii(t)
    requires forall i | 0 <= i < |s| :: s[i] < 'a'
    requires forall i | 0 <= i < |t| :: t[i] < 'a'
    ensures s == t
  {
    assert |s| == |t|;
    forall i | 0 <= i < |s| ensures s[i] == t[i] {
      assert Ascii(s)[i] == Ascii(t)[i];
    }
  }

  lemma {:induction false} VerbTextsDiffer(v: Verb, w: Verb)
    requires VerbText(v) == VerbText(w)
    ensures v == w
  {
    VerbSpelled(v);
    VerbSpelled(w);
    AsciiInjective(VerbName(v), VerbName(w));
  }

  lemma {:induction false} VerbFromFinds(v: Verb, vs: seq<Verb>)
    ensures VerbFrom(VerbText(v), vs) == if v in vs then Some(v) else None
  {
    if vs != [] {
      if VerbText(v) == VerbText(vs[0]) {
        VerbTextsDiffer(v, vs[0]);
      }
      VerbFromFinds(v, vs[1..]);
    }
  }

  lemma {:induction false} VerbFromSound(t: Arg, vs: seq<Verb>)
    ensures VerbFrom(t, vs).Some? ==> VerbText(VerbFrom(t, vs).value) == t
  {
    if vs != [] {
      VerbFromSound(t, vs[1..]);
    }
  }

  lemma {:induction false} EveryVerbListed(v: Verb)
    ensures v in VERBS
  {
    var at := match v
      case VPing => 0 case VAuth => 1 case VHello => 2 case VQuit => 3 case VStats => 4
      case VDmPut => 5 case VDmGet => 6 case VDmDel => 7 case VDmExpire => 8 case VDmPexpire => 9
      case VDmIncr => 10 case VDmDecr => 11 case VDmGetPut => 12 case VDmDestroy => 13 case VDmScan => 14
      case VClusterMembers => 15 case VClusterRoutingTable => 16 case VClusterReady => 17
      case VUpdateRouting => 18 case VLengthOfPart => 19 case VGetWithTs => 20 case VMoveFragment => 21
      case VInternalPublish => 22 case VSubscribe => 23 case VPsubscribe => 24 case VUnsubscribe => 25
      case VPunsubscribe => 26 case VPublish => 27 case VPubsub => 28;
    assert VERBS[at] == v;
  }

  /** The parser finds a verb exactly when the first 32 bytes spell it, in any case. */
  lemma {:induction false} VerbOfExact(arg: Arg, v: Verb)
    ensures VerbOf(arg) == Some(v) <==> Names(arg, v)
  {
    var t := Uppercase(VerbPrefix(arg));
    VerbFromSound(t, VERBS);
    if t == VerbText(v) {
      VerbFromFinds(v, VERBS);
      EveryVerbListed(v);
    }
  }

  lemma {:induction false} AsciiUpper(s: string)
    requires forall i | 0 <= i < |s| :: s[i] < 'a'
    ensures Uppercase(Ascii(s)) == Ascii(s)
  {
  }

  lemma {:induction false} VerbTextUpper(v: Verb)
    ensures Uppercase(VerbText(v)) == VerbText(v)
  {
    VerbSpelled(v);
    AsciiUpper(VerbName(v));
  }

  lemma {:induction false} VerbOfText(v: Verb)
    ensures VerbOf(VerbText(v)) == Some(v)
  {
    VerbTextUpper(v);
    VerbSpelled(v);
    VerbOfExact(VerbText(v), v);
  }

  // ---- options ----

  lemma {:induction false} Keyword(s: string)
    requires forall i | 0 <= i < |s| :: s[i] < 'a'
    ensures Is(Ascii(s), Ascii(s))
  {
    AsciiUpper(s);
  }

  lemma {:induction false} PutOptionKnown(k: PutOption)
    ensures PutOptionOf(PutOptionText(k)) == Some(k)
  {
    var t := PutOptionText(k);
    assert Uppercase(t)[0] == t[0] && Uppercase(t)[1] == t[1];
    assert |t| == 4 ==> Uppercase(t)[2] == t[2] && Uppercase(t)[3] == t[3];
    assert Uppercase(t) == t;
  }

  /** Reading past one printed option sets it. */
  lemma {:induction false} NumberRead(args: seq<Arg>, a: seq<Arg>, k: PutOption, v: Option<int>, o: PutOptions)
    requires !IsFlag(k) && NumberOf(o, k).None? && (v.Some? ==> InRangeOf(k, v.value))
    requires WithOption(a, PutOptionText(k), Number(v)) <= args
    ensures |a| <= |WithOption(a, PutOptionText(k), Number(v))| <= |args|
    ensures ReadPutOptions(args, |a|, o)
         == ReadPutOptions(args, |WithOption(a, PutOptionText(k), Number(v))|, WithNumber(o, k, v))
  {
    var b := WithOption(a, PutOptionText(k), Number(v));
    if v.Some? {
      assert b[|a|] == PutOptionText(k) && b[|a| + 1] == IntText(v.value);
      assert args[|a|] == b[|a|] && args[|a| + 1] == b[|a| + 1];
      PutOptionKnown(k);
      if k == Ts {
        ParseIntText(v.value, I64_MIN, I64_MAX);
      } else {
        ParseIntText(v.value, 0, U64_MAX);
      }
      assert SetNumber(o, k, args[|a| + 1]) == Ok(WithNumber(o, k, v));
    } else {
      assert WithNumber(o, k, v) == o;
    }
  }

  lemma {:induction false} FlagRead(args: seq<Arg>, a: seq<Arg>, k: PutOption, on: bool, o: PutOptions)
    requires IsFlag(k) && WithFlag(a, PutOptionText(k), on) <= args
    ensures |a| <= |WithFlag(a, PutOptionText(k), on)| <= |args|
    ensures ReadPutOptions(args, |a|, o)
         == ReadPutOptions(args, |WithFlag(a, PutOptionText(k), on)|,
                           if !on then o else if k == Nx then o.(nx := true) else o.(xx := true))
  {
    if on {
      assert WithFlag(a, PutOptionText(k), on)[|a|] == PutOptionText(k);
      assert args[|a|] == PutOptionText(k);
      PutOptionKnown(k);
    }
  }

  lemma {:induction false} ExpiriesRead(args: seq<Arg>, a: seq<Arg>, o: PutOptions)
    requires WithExpiries(a, o) <= args
    ensures a <= WithExpiries(a, o)
    ensures ReadPutOptions(args, |a|, NO_PUT_OPTIONS)
         == ReadPutOptions(args, |WithExpiries(a, o)|,
                           NO_PUT_OPTIONS.(ex := o.ex, px := o.px, exat := o.exat, pxat := o.pxat))
  {
    var a1 := WithOption(a, Ascii("EX"), Number(o.ex));
    var a2 := WithOption(a1, Ascii("PX"), Number(o.px));
    var a3 := WithOption(a2, Ascii("EXAT"), Number(o.exat));
    assert a3 <= args;
    assert a2 <= args;
    assert a1 <= args;
    var o1 := NO_PUT_OPTIONS.(ex := o.ex);
    var o2 := o1.(px := o.px);
    var o3 := o2.(exat := o.exat);
    NumberRead(args, a, Ex, o.ex, NO_PUT_OPTIONS);
    NumberRead(args, a1, Px, o.px, o1);
    NumberRead(args, a2, Exat, o.exat, o2);
    NumberRead(args, a3, Pxat, o.pxat, o3);
  }

  lemma {:induction false} FlagsRead(a: seq<Arg>, o: PutOptions)
    ensures a <= WithFlagsAndTs(a, o)
    ensures ReadPutOptions(WithFlagsAndTs(a, o), |a|, o.(nx := false, xx := false, timestamp := None)) == Ok(o)
  {
    var args := WithFlagsAndTs(a, o);
    var a1 := WithFlag(a, Ascii("NX"), o.nx);
    var a2 := WithFlag(a1, Ascii("XX"), o.xx);
    assert a2 <= args;
    assert a1 <= args;
    var o0 := o.(nx := false, xx := false, timestamp := None);
    var o1 := o0.(nx := o.nx);
    var o2 := o1.(xx := o.xx);
    FlagRead(args, a, Nx, o.nx, o0);
    FlagRead(args, a1, Xx, o.xx, o1);
    NumberRead(args, a2, Ts, o.timestamp, o2);
    assert WithNumber(o2, Ts, o.timestamp) == o;
  }

  /** Every combination of options is read back as it was printed. */
  lemma {:induction false} PutOptionsBack(a: seq<Arg>, o: PutOptions)
    ensures a <= WithPutOptions(a, o)
    ensures ReadPutOptions(WithPutOptions(a, o), |a|, NO_PUT_OPTIONS) == Ok(o)
  {
    FlagsRead(WithExpiries(a, o), o);
    ExpiriesRead(WithPutOptions(a, o), a, o);
  }

  ghost predicate PutParsed(c: Command, args: seq<Arg>)
    requires c.DmPut?
  {
    ParseDmPut(args) == if Compatible(c.options) then Ok(c) else Err(ConflictingOptions)
  }

  /** A printed DM.PUT is accepted unless its options conflict. */
  lemma {:induction false} DmPutBack(c: Command)
    requires c.DmPut?
    ensures |ToArgs(c)| >= 4 && ToArgs(c)[..1] == [VerbText(VDmPut)]
    ensures PutParsed(c, ToArgs(c))
  {
    var a := [VerbText(VDmPut), c.dmap, c.key, c.value];
    PutOptionsBack(a, c.options);
    var args := ToArgs(c);
    assert args[0] == a[0] && args[1] == a[1] && args[2] == a[2] && args[3] == a[3];
  }

  lemma {:induction false} ScanKeywords()
    ensures Is(Ascii("MATCH"), Ascii("MATCH")) && Is(Ascii("COUNT"), Ascii("COUNT"))
    ensures !Is(Ascii("COUNT"), Ascii("MATCH"))
  {
    Keyword("MATCH");
    Keyword("COUNT");
    assert Ascii("COUNT")[0] != Ascii("MATCH")[0];
  }

  lemma {:induction false} ScanOptionsBack(a: seq<Arg>, o: ScanOptions)
    ensures a <= WithScanOptions(a, o)
    ensures ReadScanOptions(WithScanOptions(a, o), |a|, NO_SCAN_OPTIONS) == Ok(o)
  {
    var args := WithScanOptions(a, o);
    var a1 := WithOption(a, Ascii("MATCH"), o.matchPattern);
    ScanKeywords();
    assert a1 <= args;
    var o1 := NO_SCAN_OPTIONS.(matchPattern := o.matchPattern);
    if o.count.Some? {
      ParseIntText(o.count.value, 0, U32_MAX);
      assert args[|a1|] == Ascii("COUNT") && args[|a1| + 1] == IntText(o.count.value);
      assert ReadScanOptions(args, |a1| + 2, o) == Ok(o);
    }
    assert ReadScanOptions(args, |a1|, o1) == Ok(o);
    if o.matchPattern.Some? {
      assert a1[|a|] == Ascii("MATCH") && a1[|a| + 1] == o.matchPattern.value;
    }
  }

  lemma {:induction false} DmScanBack(c: Command)
    requires c.DmScan?
    ensures |ToArgs(c)| >= 4 && ToArgs(c)[..1] == [VerbText(VDmScan)]
    ensures ParseDmScan(ToArgs(c)) == Ok(c)
  {
    var a := [VerbText(VDmScan), IntText(c.partitionId), c.dmap, IntText(c.cursor)];
    ScanOptionsBack(a, c.scan);
    var args := ToArgs(c);
    assert args[0] == a[0] && args[1] == a[1] && args[2] == a[2] && args[3] == a[3];
    ParseIntText(c.partitionId, 0, U32_MAX);
    ParseIntText(c.cursor, 0, U64_MAX);
  }

  lemma {:induction false} HelloKeywords()
    ensures Is(Ascii("AUTH"), Ascii("AUTH")) && Is(Ascii("SETNAME"), Ascii("SETNAME"))
    ensures !Is(Ascii("SETNAME"), Ascii("AUTH"))
  {
    Keyword("AUTH");
    Keyword("SETNAME");
  }

  lemma {:induction false} NumberIsNoKeyword(n: nat)
    ensures !HelloKeyword(IntText(n))
  {
    var t := IntText(n);
    assert Uppercase(t)[0] == t[0];
    assert Ascii("AUTH")[0] == 65 && Ascii("SETNAME")[0] == 83;
  }

  /** A missing user name is printed as `default`, and so comes back as a name. */
  function NamedUser(h: HelloArgs): HelloArgs {
    if h.auth.Some? && h.auth.value.user.None? then
      h.(auth := Some(HelloAuth(Some(Ascii("default")), h.auth.value.password)))
    else h
  }

  lemma {:induction false} ClausesBack(a: seq<Arg>, h: HelloArgs)
    ensures var args := WithOption(WithAuth(a, h.auth), Ascii("SETNAME"), h.clientName);
      a <= args && ReadHelloClauses(args, |a|, NO_HELLO.(protocolVersion := h.protocolVersion)) == Ok(NamedUser(h))
  {
    var a1 := WithAuth(a, h.auth);
    var args := WithOption(a1, Ascii("SETNAME"), h.clientName);
    HelloKeywords();
    assert a1 <= args;
    var named := NamedUser(h);
    var h1 := HelloArgs(h.protocolVersion, named.auth, None);
    if h.clientName.Some? {
      assert args[|a1|] == Ascii("SETNAME") && args[|a1| + 1] == h.clientName.value;
      assert ReadHelloClauses(args, |a1| + 2, named) == Ok(named);
    }
    assert ReadHelloClauses(args, |a1|, h1) == Ok(named);
    if h.auth.Some? {
      assert a1[|a|] == Ascii("AUTH");
      assert Some(HelloAuth(Some(args[|a| + 1]), args[|a| + 2])) == named.auth;
    }
  }

  lemma {:induction false} FirstClause(a: seq<Arg>, h: HelloArgs)
    requires |a| == 1
    ensures var args := WithOption(WithAuth(a, h.auth), Ascii("SETNAME"), h.clientName);
      |args| > 1 ==> HelloKeyword(args[1])
  {
    HelloKeywords();
  }

  lemma {:induction false} HelloBack(h: HelloArgs)
    ensures HelloToArgs(h) != [] && HelloToArgs(h)[..1] == [VerbText(VHello)]
    ensures ParseHello(HelloToArgs(h)) == Ok(Hello(NamedUser(h)))
  {
    var a0 := [VerbText(VHello)];
    var a1 := WithArg(a0, Number(h.protocolVersion));
    var args := HelloToArgs(h);
    ClausesBack(a1, h);
    assert args[0] == a1[0];
    if h.protocolVersion.Some? {
      assert args[1] == a1[1];
      NumberIsNoKeyword(h.protocolVersion.value);
      ParseIntText(h.protocolVersion.value, 0, U32_MAX);
    } else {
      FirstClause(a0, h);
    }
  }

  // ---- whole commands ----

  /** What a caller must respect for a command to survive printing and parsing. */
  predicate WellFormed(c: Command) {
    match c
    case Hello(h) => h.auth.Some? ==> h.auth.value.user.Some?
    case DmPut(_, _, _, o) => Compatible(o)
    case DmDel(_, keys) => keys != []
    case Subscribe(cs) => cs != []
    case Psubscribe(ps) => ps != []
    case _ => true
  }

  function VerbOfCommand(c: Command): Verb {
    match c
    case Ping(_) => VPing
    case Auth(_, _) => VAuth
    case Hello(_) => VHello
    case Quit => VQuit
    case Stats => VStats
    case DmPut(_, _, _, _) => VDmPut
    case DmGet(_, _) => VDmGet
    case DmDel(_, _) => VDmDel
    case DmExpire(_, _, _) => VDmExpire
    case DmPexpire(_, _, _) => VDmPexpire
    case DmIncr(_, _, _) => VDmIncr
    case DmDecr(_, _, _) => VDmDecr
    case DmGetPut(_, _, _) => VDmGetPut
    case DmDestroy(_) => VDmDestroy
    case DmScan(_, _, _, _) => VDmScan
    case ClusterMembers => VClusterMembers
    case ClusterRoutingTable => VClusterRoutingTable
    case ClusterReady => VClusterReady
    case InternalUpdateRouting(_) => VUpdateRouting
    case InternalLengthOfPart(_) => VLengthOfPart
    case InternalGetWithTs(_, _) => VGetWithTs
    case InternalMoveFragment(_, _, _, _) => VMoveFragment
    case InternalPublish(_, _) => VInternalPublish
    case Subscribe(_) => VSubscribe
    case Psubscribe(_) => VPsubscribe
    case Unsubscribe(_) => VUnsubscribe
    case Punsubscribe(_) => VPunsubscribe
    case Publish(_, _) => VPublish
    case PubsubChannels(_) => VPubsub
    case PubsubNumsub(_) => VPubsub
    case PubsubNumpat => VPubsub
  }

  /** Parsing the printed arguments under the command's own verb. */
  ghost predicate Back(c: Command, args: seq<Arg>, v: Verb) {
    && args != [] && args[0] == VerbText(v)
    && (ParseVerb(v, args) == Ok(c) <==> WellFormed(c))
  }

  lemma {:induction false} OptionsBack(c: Command, args: seq<Arg>)
    requires (c.DmPut? && |args| >= 4 && args[..1] == [VerbText(VDmPut)] && PutParsed(c, args))
          || (c.DmScan? && |args| >= 4 && args[..1] == [VerbText(VDmScan)] && ParseDmScan(args) == Ok(c))
          || (c.Hello? && |args| >= 1 && args[..1] == [VerbText(VHello)]
              && ParseHello(args) == Ok(Hello(NamedUser(c.hello))))
    ensures Back(c, args, VerbOfCommand(c))
  {
    assert args[0] == args[..1][0];
  }

  lemma {:induction false} PubsubKeywords()
    ensures Is(Ascii("CHANNELS"), Ascii("CHANNELS"))
    ensures Is(Ascii("NUMSUB"), Ascii("NUMSUB")) && !Is(Ascii("NUMSUB"), Ascii("CHANNELS"))
    ensures Is(Ascii("NUMPAT"), Ascii("NUMPAT")) && !Is(Ascii("NUMPAT"), Ascii("CHANNELS"))
    ensures !Is(Ascii("NUMPAT"), Ascii("NUMSUB"))
  {
    Keyword("CHANNELS");
    Keyword("NUMSUB");
    Keyword("NUMPAT");
    assert Ascii("NUMPAT")[3] != Ascii("NUMSUB")[3];
  }

  lemma {:induction false} PubsubBack(c: Command)
    requires VerbOfCommand(c) == VPubsub
    ensures Back(c, ToArgs(c), VPubsub)
  {
    PubsubKeywords();
    var args := ToArgs(c);
    if c.PubsubNumsub? {
      assert args[2..] == c.channels;
    }
  }

  /** Commands whose arguments are a list of any length. */
  lemma {:induction false} ListBack(c: Command)
    requires c.DmDel? || c.Subscribe? || c.Psubscribe? || c.Unsubscribe? || c.Punsubscribe?
    ensures Back(c, ToArgs(c), VerbOfCommand(c))
  {
    var args := ToArgs(c);
    if c.DmDel? {
      assert args[2..] == c.keys;
    } else if c.Subscribe? || c.Unsubscribe? {
      assert args[1..] == c.channels;
    } else {
      assert args[1..] == c.patterns;
    }
  }

  lemma {:induction false} PartitionBack(c: Command)
    requires c.InternalLengthOfPart? || c.InternalMoveFragment?
    ensures Back(c, ToArgs(c), VerbOfCommand(c))
  {
    ParseIntText(c.partitionId, 0, U32_MAX);
    if c.InternalMoveFragment? {
      ParseIntText(TypeNumber(c.partitionType), 0, 255);
    }
  }

  lemma {:induction false} NumbersBack(c: Command)
    requires c.DmExpire? || c.DmPexpire? || c.DmIncr? || c.DmDecr?
    ensures Back(c, ToArgs(c), VerbOfCommand(c))
  {
    if c.DmExpire? {
      ParseIntText(c.seconds, 0, U64_MAX);
      assert ParseNumbered(VDmExpire, ToArgs(c)) == Ok(c);
    } else if c.DmPexpire? {
      ParseIntText(c.milliseconds, 0, U64_MAX);
      assert ParseNumbered(VDmPexpire, ToArgs(c)) == Ok(c);
    } else {
      ParseIntText(c.delta, I64_MIN, I64_MAX);
      assert ParseNumbered(VerbOfCommand(c), ToArgs(c)) == Ok(c);
    }
  }

  predicate TwoOrThreeArgs(c: Command) {
    c.DmGet? || c.DmGetPut? || c.InternalGetWithTs? || c.InternalPublish? || c.Publish?
  }

  lemma {:induction false} FixedBack(c: Command)
    requires TwoOrThreeArgs(c)
    ensures Back(c, ToArgs(c), VerbOfCommand(c))
  {
  }

  predicate Bare(c: Command) {
    || c.Ping? || c.Auth? || c.Quit? || c.Stats? || c.DmDestroy? || c.ClusterMembers? || c.ClusterRoutingTable?
    || c.ClusterReady? || c.InternalUpdateRouting?
  }

  lemma {:induction false} BareBack(c: Command)
    requires Bare(c)
    ensures Back(c, ToArgs(c), VerbOfCommand(c))
  {
  }

  lemma {:induction false} VerbParsesBack(c: Command)
    ensures Back(c, ToArgs(c), VerbOfCommand(c))
  {
    if c.Hello? {
      HelloBack(c.hello);
      OptionsBack(c, ToArgs(c));
    } else if c.DmPut? {
      DmPutBack(c);
      OptionsBack(c, ToArgs(c));
    } else if c.DmScan? {
      DmScanBack(c);
      OptionsBack(c, ToArgs(c));
    } else if VerbOfCommand(c) == VPubsub {
      PubsubBack(c);
    } else if c.DmDel? || c.Subscribe? || c.Psubscribe? || c.Unsubscribe? || c.Punsubscribe? {
      ListBack(c);
    } else if c.InternalLengthOfPart? || c.InternalMoveFragment? {
      PartitionBack(c);
    } else if TwoOrThreeArgs(c) {
      FixedBack(c);
    } else if Bare(c) {
      BareBack(c);
    } else {
      NumbersBack(c);
    }
  }

  lemma {:induction false} BulksBack(args: seq<Arg>)
    ensures ArgsOf(Bulks(args)) == Ok(args)
  {
    if args != [] {
      var n := |args| - 1;
      assert Bulks(args)[..n] == Bulks(args[..n]);
      BulksBack(args[..n]);
      assert args[..n] + [args[n]] == args;
    }
  }

  /** Parsing a printed command gives it back exactly when it is well formed, whatever its bytes are. */
  lemma {:induction false} ParseInvertsToFrame(c: Command)
    ensures Parse(ToFrame(c)) == Ok(c) <==> WellFormed(c)
  {
    var args := ToArgs(c);
    VerbOfText(VerbOfCommand(c));
    VerbParsesBack(c);
    BulksBack(args);
  }

  // ---- over the wire ----

  /** The peer's limits admit every argument and their number. */
  predicate Fits(args: seq<Arg>, lim: Limits) {
    && |args| <= lim.maxArray && |args| <= I64_MAX
    && forall i | 0 <= i < |args| :: |args[i]| <= lim.maxBulk && |args[i]| <= I64_MAX
  }

  lemma {:induction false} BulksLegal(args: seq<Arg>, lim: Limits)
    requires forall i | 0 <= i < |args| :: |args[i]| <= lim.maxBulk && |args[i]| <= I64_MAX
    ensures AllLegal(Bulks(args), lim, 1)
  {
    if args != [] {
      var n := |args| - 1;
      assert Bulks(args)[..n] == Bulks(args[..n]);
      BulksLegal(args[..n], lim);
    }
  }

  lemma {:induction false} CommandLegal(c: Command, lim: Limits)
    requires Fits(ToArgs(c), lim)
    ensures Legal(ToFrame(c), lim, 0)
  {
    BulksLegal(ToArgs(c), lim);
  }

  /** Printing, encoding, decoding in front of any other bytes, and parsing. */
  lemma {:induction false} CommandOverTheWire(c: Command, rest: seq<Byte>, lim: Limits)
    requires WellFormed(c) && Fits(ToArgs(c), lim)
    ensures Encode(ToFrame(c), lim.version).Ok?
    ensures var e := Encode(ToFrame(c), lim.version).value;
      var d := Decode(e + rest, lim);
      d.Got? && d.consumed == |e| && Parse(d.frame) == Ok(c)
  {
    CommandLegal(c, lim);
    ParseInvertsToFrame(c);
    var f := ToFrame(c);
    EncodingSpells(f, lim);
    DecoderGotIsFinal(lim);
    FirstPart(Encode(f, lim.version).value, rest, f, DecoderFor(lim));
  }

  /** A pipeline of commands, cut into pieces in any way, arrives as the same commands. */
  lemma {:induction false} PipelineArrives(
    commands: seq<Command>, parts: seq<seq<Byte>>, chunks: seq<seq<Byte>>, lim: Limits)
    requires |parts| == |commands|
    requires forall i | 0 <= i < |commands| ::
      WellFormed(commands[i]) && Fits(ToArgs(commands[i]), lim)
      && Encode(ToFrame(commands[i]), lim.version) == Ok(parts[i])
    requires Concatenated(chunks) == StreamFrom(parts, 0)
    ensures var r := Feed(Outcome([], [], None), chunks, DecoderFor(lim));
      && r.failed.None? && r.rest == [] && |r.frames| == |commands|
      && forall i | 0 <= i < |commands| :: Parse(r.frames[i]) == Ok(commands[i])
  {
    var frames := seq(|commands|, i requires 0 <= i < |commands| => ToFrame(commands[i]));
    forall i | 0 <= i < |commands| ensures Legal(frames[i], lim, 0) && Parse(frames[i]) == Ok(commands[i]) {
      CommandLegal(commands[i], lim);
      ParseInvertsToFrame(commands[i]);
    }
    ChunkingIsInvisible(chunks, frames, parts, lim);
  }
}
