/** What arguments a client may send, beyond the ones commands are printed with. */
module CommandMeaning {
  import opened Wrappers
  import opened Bytes
  import opened Text
  import Resp
  import opened RespStream
  import opened Commands
  import opened CommandProofs

  // ---- keywords in any case ----

  /** The bytes spell the upper-case word, each letter in either case. */
  predicate Spells(arg: Arg, word: string) {
    && |arg| == |word|
    && forall i | 0 <= i < |word| ::
         arg[i] == word[i] as int || ('A' <= word[i] <= 'Z' && arg[i] == word[i] as int + 32)
  }

  predicate IsWord(word: string) {
    forall i | 0 <= i < |word| :: word[i] < 'a'
  }

  lemma {:induction false} AnyCase(arg: Arg, word: string)
    requires IsWord(word)
    ensures Is(arg, Ascii(word)) <==> Spells(arg, word)
  {
    if Spells(arg, word) {
      forall i | 0 <= i < |word| ensures Uppercase(arg)[i] == Ascii(word)[i] {
      }
    }
    if Is(arg, Ascii(word)) {
      forall i | 0 <= i < |word|
        ensures arg[i] == word[i] as int || ('A' <= word[i] <= 'Z' && arg[i] == word[i] as int + 32)
      {
        assert Uppercase(arg)[i] == Ascii(word)[i];
      }
    }
  }

  /** A verb of up to 32 bytes is recognised exactly when it spells its name, in any case. */
  lemma {:induction false} VerbInAnyCase(arg: Arg, v: Verb)
    requires |arg| <= 32
    ensures VerbOf(arg) == Some(v) <==> Spells(arg, VerbName(v))
  {
    VerbOfExact(arg, v);
    VerbSpelled(v);
    AnyCase(arg, VerbName(v));
  }

  /** The keywords of DM.PUT's options. */
  lemma {:induction false} PutKeywords(tok: Arg)
    ensures Spells(tok, "EX") <==> PutOptionOf(tok) == Some(Ex)
    ensures Spells(tok, "PX") <==> PutOptionOf(tok) == Some(Px)
    ensures Spells(tok, "EXAT") <==> PutOptionOf(tok) == Some(Exat)
    ensures Spells(tok, "PXAT") <==> PutOptionOf(tok) == Some(Pxat)
    ensures Spells(tok, "NX") <==> PutOptionOf(tok) == Some(Nx)
    ensures Spells(tok, "XX") <==> PutOptionOf(tok) == Some(Xx)
    ensures Spells(tok, "TS") <==> PutOptionOf(tok) == Some(Ts)
  {
    AnyCase(tok, "EX");
    AnyCase(tok, "PX");
    AnyCase(tok, "EXAT");
    AnyCase(tok, "PXAT");
    AnyCase(tok, "NX");
    AnyCase(tok, "XX");
    AnyCase(tok, "TS");
    TwoLetters(tok);
  }

  /** No token spells two keywords. */
  lemma {:induction false} TwoLetters(tok: Arg)
    ensures |tok| == 2 ==> Uppercase(tok)[0] == Upper(tok[0]) && Uppercase(tok)[1] == Upper(tok[1])
    ensures Ascii("EX") != Ascii("PX") && Ascii("EX") != Ascii("NX") && Ascii("EX") != Ascii("XX")
    ensures Ascii("EX") != Ascii("TS") && Ascii("PX") != Ascii("NX") && Ascii("PX") != Ascii("XX")
    ensures Ascii("PX") != Ascii("TS") && Ascii("NX") != Ascii("XX") && Ascii("NX") != Ascii("TS")
    ensures Ascii("XX") != Ascii("TS") && Ascii("EXAT") != Ascii("PXAT")
  {
    assert Ascii("EX")[0] == 69 && Ascii("PX")[0] == 80 && Ascii("NX")[0] == 78 && Ascii("XX")[0] == 88;
    assert Ascii("TS")[0] == 84 && Ascii("EXAT")[0] == 69 && Ascii("PXAT")[0] == 80;
  }

  // ---- what the options of DM.PUT do ----

  /** An option given once, last, sets its own field and nothing else. */
  lemma {:induction false} PutOptionMeaning(args: seq<Arg>, i: nat, o: PutOptions, n: int)
    requires i + 2 == |args| && args[i + 1] == IntText(n)
    ensures Spells(args[i], "EX") && o.ex.None? && 0 <= n <= U64_MAX ==>
      ReadPutOptions(args, i, o) == Ok(o.(ex := Some(n)))
    ensures Spells(args[i], "PX") && o.px.None? && 0 <= n <= U64_MAX ==>
      ReadPutOptions(args, i, o) == Ok(o.(px := Some(n)))
    ensures Spells(args[i], "EXAT") && o.exat.None? && 0 <= n <= U64_MAX ==>
      ReadPutOptions(args, i, o) == Ok(o.(exat := Some(n)))
    ensures Spells(args[i], "PXAT") && o.pxat.None? && 0 <= n <= U64_MAX ==>
      ReadPutOptions(args, i, o) == Ok(o.(pxat := Some(n)))
    ensures Spells(args[i], "TS") && o.timestamp.None? && I64_MIN <= n <= I64_MAX ==>
      ReadPutOptions(args, i, o) == Ok(o.(timestamp := Some(n)))
  {
    PutKeywords(args[i]);
    if 0 <= n <= U64_MAX {
      ParseIntText(n, 0, U64_MAX);
    }
    if I64_MIN <= n <= I64_MAX {
      ParseIntText(n, I64_MIN, I64_MAX);
    }
  }

  lemma {:induction false} PutFlagMeaning(args: seq<Arg>, i: nat, o: PutOptions)
    requires i + 1 == |args|
    ensures Spells(args[i], "NX") ==> ReadPutOptions(args, i, o) == Ok(o.(nx := true))
    ensures Spells(args[i], "XX") ==> ReadPutOptions(args, i, o) == Ok(o.(xx := true))
  {
    PutKeywords(args[i]);
  }

  /** A valued option that is already set is a conflict, whatever its second value. */
  lemma {:induction false} RepeatedOptionConflicts(args: seq<Arg>, i: nat, o: PutOptions)
    requires i + 1 < |args|
    requires || (Spells(args[i], "EX") && o.ex.Some?) || (Spells(args[i], "PX") && o.px.Some?)
             || (Spells(args[i], "EXAT") && o.exat.Some?) || (Spells(args[i], "PXAT") && o.pxat.Some?)
             || (Spells(args[i], "TS") && o.timestamp.Some?)
    ensures ReadPutOptions(args, i, o) == Err(ConflictingOptions)
  {
    PutKeywords(args[i]);
  }

  /** Not both conditions, and no two of the four expiries. */
  predicate Exclusive(o: PutOptions) {
    && !(o.nx && o.xx)
    && !(o.ex.Some? && o.px.Some?) && !(o.ex.Some? && o.exat.Some?) && !(o.ex.Some? && o.pxat.Some?)
    && !(o.px.Some? && o.exat.Some?) && !(o.px.Some? && o.pxat.Some?) && !(o.exat.Some? && o.pxat.Some?)
  }

  /** What is accepted takes its first three arguments as they are, and its options do not conflict. */
  lemma {:induction false} AcceptedPut(args: seq<Arg>)
    requires ParseDmPut(args).Ok?
    ensures |args| >= 4
    ensures var c := ParseDmPut(args).value;
      && c.DmPut? && c.dmap == args[1] && c.key == args[2] && c.value == args[3] && Exclusive(c.options)
      && ReadPutOptions(args, 4, PutOptions(None, None, None, None, false, false, None)) == Ok(c.options)
  {
  }

  /** A printed put comes back exactly when its options do not conflict. */
  lemma {:induction false} PrintedPutAcceptedIff(c: Command)
    requires c.DmPut?
    ensures ParseDmPut(ToArgs(c)) == if Exclusive(c.options) then Ok(c) else Err(ConflictingOptions)
  {
    DmPutBack(c);
  }

  // ---- no argument is ignored ----

  function PutSize(o: PutOptions): nat {
    2 * (Count(o.ex.Some?) + Count(o.px.Some?) + Count(o.exat.Some?) + Count(o.pxat.Some?) + Count(o.timestamp.Some?))
    + Count(o.nx) + Count(o.xx)
  }

  lemma {:induction false} PutUses(args: seq<Arg>, i: nat, o: PutOptions)
    requires i <= |args| && ReadPutOptions(args, i, o).Ok?
    ensures PutSize(ReadPutOptions(args, i, o).value) <= PutSize(o) + (|args| - i)
    decreases |args| - i
  {
    if i < |args| {
      var k := PutOptionOf(args[i]).value;
      if k == Nx {
        PutUses(args, i + 1, o.(nx := true));
      } else if k == Xx {
        PutUses(args, i + 1, o.(xx := true));
      } else {
        PutUses(args, i + 2, SetNumber(o, k, args[i + 1]).value);
      }
    }
  }

  function ScanSize(o: ScanOptions): nat {
    2 * (Count(o.matchPattern.Some?) + Count(o.count.Some?))
  }

  lemma {:induction false} ScanUses(args: seq<Arg>, i: nat, o: ScanOptions)
    requires i <= |args| && ReadScanOptions(args, i, o).Ok?
    ensures ScanSize(ReadScanOptions(args, i, o).value) == ScanSize(o) + (|args| - i)
    decreases |args| - i
  {
    if i < |args| {
      if Is(args[i], Ascii("MATCH")) {
        ScanUses(args, i + 2, o.(matchPattern := Some(args[i + 1])));
      } else {
        ScanUses(args, i + 2, o.(count := ParseInt(args[i + 1], 0, U32_MAX)));
      }
    }
  }

  function HelloSize(h: HelloArgs): nat {
    Count(h.protocolVersion.Some?) + 3 * Count(h.auth.Some?) + 2 * Count(h.clientName.Some?)
  }

  lemma {:induction false} HelloUses(args: seq<Arg>, i: nat, h: HelloArgs)
    requires i <= |args| && ReadHelloClauses(args, i, h).Ok?
    ensures HelloSize(ReadHelloClauses(args, i, h).value) <= HelloSize(h) + (|args| - i)
    decreases |args| - i
  {
    if i < |args| {
      if Is(args[i], Ascii("AUTH")) {
        HelloUses(args, i + 3, h.(auth := Some(HelloAuth(Some(args[i + 1]), args[i + 2]))));
      } else {
        HelloUses(args, i + 2, h.(clientName := Some(args[i + 1])));
      }
    }
  }

  lemma {:induction false} ExpiriesPrinted(a: seq<Arg>, o: PutOptions)
    ensures |WithExpiries(a, o)|
         == |a| + 2 * (Count(o.ex.Some?) + Count(o.px.Some?) + Count(o.exat.Some?) + Count(o.pxat.Some?))
  {
  }

  lemma {:induction false} FlagsPrinted(a: seq<Arg>, o: PutOptions)
    ensures |WithFlagsAndTs(a, o)| == |a| + Count(o.nx) + Count(o.xx) + 2 * Count(o.timestamp.Some?)
  {
  }

  lemma {:induction false} PutPrinted(c: Command)
    requires c.DmPut?
    ensures |ToArgs(c)| == 4 + PutSize(c.options)
  {
    var a := [VerbText(VDmPut), c.dmap, c.key, c.value];
    ExpiriesPrinted(a, c.options);
    FlagsPrinted(WithExpiries(a, c.options), c.options);
  }

  lemma {:induction false} HelloPrinted(h: HelloArgs)
    ensures |HelloToArgs(h)| == 1 + HelloSize(h)
  {
  }

  predicate OptionVerb(v: Verb) {
    v == VDmPut || v == VDmScan || v == VHello || v == VPubsub
  }

  lemma {:induction false} DataVerbUsesAll(v: Verb, args: seq<Arg>)
    requires args != [] && FamilyOf(v) == Data && !OptionVerb(v) && ParseVerb(v, args).Ok?
    ensures |ToArgs(ParseVerb(v, args).value)| == |args|
  {
  }

  lemma {:induction false} UtilityVerbUsesAll(v: Verb, args: seq<Arg>)
    requires args != [] && FamilyOf(v) == Utility && !OptionVerb(v) && ParseVerb(v, args).Ok?
    ensures |ToArgs(ParseVerb(v, args).value)| == |args|
  {
  }

  lemma {:induction false} ClusterVerbUsesAll(v: Verb, args: seq<Arg>)
    requires args != [] && FamilyOf(v) == Cluster && !OptionVerb(v) && ParseVerb(v, args).Ok?
    ensures |ToArgs(ParseVerb(v, args).value)| == |args|
  {
  }

  lemma {:induction false} InternalVerbUsesAll(v: Verb, args: seq<Arg>)
    requires args != [] && FamilyOf(v) == Internal && !OptionVerb(v) && ParseVerb(v, args).Ok?
    ensures |ToArgs(ParseVerb(v, args).value)| == |args|
  {
  }

  lemma {:induction false} PubSubVerbUsesAll(v: Verb, args: seq<Arg>)
    requires args != [] && FamilyOf(v) == PubSub && !OptionVerb(v) && ParseVerb(v, args).Ok?
    ensures |ToArgs(ParseVerb(v, args).value)| == |args|
  {
  }

  lemma {:induction false} PlainVerbUsesAll(v: Verb, args: seq<Arg>)
    requires args != [] && !OptionVerb(v) && ParseVerb(v, args).Ok?
    ensures |ToArgs(ParseVerb(v, args).value)| == |args|
  {
    match FamilyOf(v)
    case Utility => UtilityVerbUsesAll(v, args);
    case Data => DataVerbUsesAll(v, args);
    case Cluster => ClusterVerbUsesAll(v, args);
    case Internal => InternalVerbUsesAll(v, args);
    case PubSub => PubSubVerbUsesAll(v, args);
  }

  lemma {:induction false} PubsubUses(args: seq<Arg>)
    requires ParsePubsub(args).Ok?
    ensures |ToArgs(ParsePubsub(args).value)| == |args|
  {
  }

  lemma {:induction false} ScanVerbUses(args: seq<Arg>)
    requires ParseDmScan(args).Ok?
    ensures |ToArgs(ParseDmScan(args).value)| == |args|
  {
    ScanUses(args, 4, NO_SCAN_OPTIONS);
  }

  lemma {:induction false} PutVerbUses(args: seq<Arg>)
    requires ParseDmPut(args).Ok?
    ensures |ToArgs(ParseDmPut(args).value)| <= |args|
  {
    PutUses(args, 4, NO_PUT_OPTIONS);
    PutPrinted(ParseDmPut(args).value);
  }

  lemma {:induction false} OptionVerbUses(v: Verb, args: seq<Arg>)
    requires args != [] && OptionVerb(v) && ParseVerb(v, args).Ok?
    ensures var c := ParseVerb(v, args).value;
      |ToArgs(c)| <= |args| && (v == VDmScan || v == VPubsub ==> |ToArgs(c)| == |args|)
  {
    if v == VDmPut {
      PutVerbUses(args);
    } else if v == VDmScan {
      ScanVerbUses(args);
    } else if v == VHello {
      HelloVerbUses(args);
    } else {
      PubsubUses(args);
    }
  }

  lemma {:induction false} HelloVerbUses(args: seq<Arg>)
    requires args != [] && ParseHello(args).Ok?
    ensures ParseHello(args).value.Hello? && |HelloToArgs(ParseHello(args).value.hello)| <= |args|
  {
    if |args| > 1 && !HelloKeyword(args[1]) {
      HelloUses(args, 2, NO_HELLO.(protocolVersion := ParseInt(args[1], 0, U32_MAX)));
    } else {
      HelloUses(args, 1, NO_HELLO);
    }
    HelloPrinted(ParseHello(args).value.hello);
  }

  /**
   An accepted command accounts for every argument it was given: printed, it has as many. Only a DM.PUT
   may repeat its flags, and a HELLO its clauses.
   */
  lemma {:induction false} NoArgumentIgnored(args: seq<Arg>)
    requires args != [] && ParseArgs(args).Ok?
    ensures var c := ParseArgs(args).value;
      |ToArgs(c)| <= |args| && (!c.DmPut? && !c.Hello? ==> |ToArgs(c)| == |args|)
  {
    var v := VerbOf(args[0]).value;
    if OptionVerb(v) {
      OptionVerbUses(v, args);
    } else {
      PlainVerbUsesAll(v, args);
    }
  }

  // ---- errors ----

  predicate SpellsValued(tok: Arg) {
    Spells(tok, "EX") || Spells(tok, "PX") || Spells(tok, "EXAT") || Spells(tok, "PXAT") || Spells(tok, "TS")
  }

  /** An unknown option, a missing value, or a value that is no number, is refused. */
  lemma {:induction false} BadOptionRefused(args: seq<Arg>, i: nat, o: PutOptions)
    requires i < |args|
    ensures !SpellsValued(args[i]) && !Spells(args[i], "NX") && !Spells(args[i], "XX") ==>
      ReadPutOptions(args, i, o) == Err(InvalidArgument)
    ensures SpellsValued(args[i]) && i + 1 == |args| ==> ReadPutOptions(args, i, o) == Err(InvalidArgument)
    ensures (SpellsValued(args[i]) && i + 1 < |args| && o == NO_PUT_OPTIONS && IsNoNumber(args[i + 1])) ==>
      ReadPutOptions(args, i, o) == Err(InvalidArgument)
  {
    PutKeywords(args[i]);
    if i + 1 < |args| && IsNoNumber(args[i + 1]) {
      NarrowerRefuses(args[i + 1]);
    }
  }

  predicate IsNoNumber(s: Arg) {
    ParseInt(s, I64_MIN, U64_MAX).None?
  }

  lemma {:induction false} NarrowerRefuses(s: Arg)
    requires IsNoNumber(s)
    ensures ParseInt(s, 0, U64_MAX).None? && ParseInt(s, I64_MIN, I64_MAX).None?
  {
  }

  /** Anything but a non-empty array of bulk strings is no command, and an unknown verb is named in the error. */
  lemma {:induction false} NotACommand(f: Resp.Frame, args: seq<Arg>)
    ensures !f.Array? || f.items == [] ==> Parse(f) == Err(NotAnArray)
    ensures args != [] && (forall v: Verb :: !Names(args[0], v)) ==>
      Parse(Resp.Array(Bulks(args))) == Err(UnknownCommand(args[0]))
  {
    BulksBack(args);
    if args != [] && (forall v: Verb :: !Names(args[0], v)) && VerbOf(args[0]).Some? {
      VerbOfExact(args[0], VerbOf(args[0]).value);
    }
  }

  // ---- DM.SCAN and HELLO ----

  lemma {:induction false} ScanOptionMeaning(args: seq<Arg>, i: nat, o: ScanOptions, n: nat)
    requires i + 2 == |args|
    ensures Spells(args[i], "MATCH") && o.matchPattern.None? ==>
      ReadScanOptions(args, i, o) == Ok(o.(matchPattern := Some(args[i + 1])))
    ensures Spells(args[i], "COUNT") && o.count.None? && args[i + 1] == IntText(n) && n <= U32_MAX ==>
      ReadScanOptions(args, i, o) == Ok(o.(count := Some(n)))
    ensures (Spells(args[i], "MATCH") && o.matchPattern.Some?) || (Spells(args[i], "COUNT") && o.count.Some?) ==>
      ReadScanOptions(args, i, o) == Err(ConflictingOptions)
    ensures !Spells(args[i], "MATCH") && !Spells(args[i], "COUNT") ==>
      ReadScanOptions(args, i, o) == Err(InvalidArgument)
  {
    AnyCase(args[i], "MATCH");
    AnyCase(args[i], "COUNT");
    ScanKeywords();
    if n <= U32_MAX {
      ParseIntText(n, 0, U32_MAX);
    }
  }

  /** The last clause of a kind counts: AUTH takes a user and a password, SETNAME a name. */
  lemma {:induction false} HelloClauseMeaning(args: seq<Arg>, i: nat, h: HelloArgs)
    requires i < |args|
    ensures Spells(args[i], "AUTH") && i + 3 == |args| ==>
      ReadHelloClauses(args, i, h) == Ok(h.(auth := Some(HelloAuth(Some(args[i + 1]), args[i + 2]))))
    ensures Spells(args[i], "SETNAME") && i + 2 == |args| ==>
      ReadHelloClauses(args, i, h) == Ok(h.(clientName := Some(args[i + 1])))
    ensures (Spells(args[i], "AUTH") && |args| < i + 3) || (Spells(args[i], "SETNAME") && i + 1 == |args|) ==>
      ReadHelloClauses(args, i, h) == Err(InvalidArgument)
    ensures !Spells(args[i], "AUTH") && !Spells(args[i], "SETNAME") ==>
      ReadHelloClauses(args, i, h) == Err(InvalidArgument)
  {
    AnyCase(args[i], "AUTH");
    AnyCase(args[i], "SETNAME");
    HelloKeywords();
  }

  lemma {:induction false} HelloVersionMeaning(args: seq<Arg>, n: nat)
    requires |args| == 2 && args[1] == IntText(n) && n <= U32_MAX
    ensures ParseHello(args) == Ok(Hello(HelloArgs(Some(n), None, None)))
  {
    NumberIsNoKeyword(n);
    ParseIntText(n, 0, U32_MAX);
  }

  // ---- the words and the order of arguments on the wire ----

  /** The first word of each command. */
  function WordOf(c: Command): string {
    match c
    case Ping(_) => "PING"
    case Auth(_, _) => "AUTH"
    case Hello(_) => "HELLO"
    case Quit => "QUIT"
    case Stats => "STATS"
    case DmPut(_, _, _, _) => "DM.PUT"
    case DmGet(_, _) => "DM.GET"
    case DmDel(_, _) => "DM.DEL"
    case DmExpire(_, _, _) => "DM.EXPIRE"
    case DmPexpire(_, _, _) => "DM.PEXPIRE"
    case DmIncr(_, _, _) => "DM.INCR"
    case DmDecr(_, _, _) => "DM.DECR"
    case DmGetPut(_, _, _) => "DM.GETPUT"
    case DmDestroy(_) => "DM.DESTROY"
    case DmScan(_, _, _, _) => "DM.SCAN"
    case ClusterMembers => "CLUSTER.MEMBERS"
    case ClusterRoutingTable => "CLUSTER.ROUTINGTABLE"
    case ClusterReady => "CLUSTER.READY"
    case InternalUpdateRouting(_) => "INTERNAL.NODE.UPDATEROUTING"
    case InternalLengthOfPart(_) => "INTERNAL.NODE.LENGTHOFPART"
    case InternalGetWithTs(_, _) => "INTERNAL.NODE.GETWITHTS"
    case InternalMoveFragment(_, _, _, _) => "INTERNAL.NODE.MOVEFRAGMENT"
    case InternalPublish(_, _) => "INTERNAL.NODE.PUBLISH"
    case Subscribe(_) => "SUBSCRIBE"
    case Psubscribe(_) => "PSUBSCRIBE"
    case Unsubscribe(_) => "UNSUBSCRIBE"
    case Punsubscribe(_) => "PUNSUBSCRIBE"
    case Publish(_, _) => "PUBLISH"
    case _ => "PUBSUB"
  }

  /** The arguments after it, without options. */
  function ArgumentsOf(c: Command): seq<Arg> {
    match c
    case Ping(m) => if m.None? then [] else [m.value]
    case Auth(u, p) => if u.None? then [p] else [u.value, p]
    case DmPut(d, k, v, _) => [d, k, v]
    case DmGet(d, k) => [d, k]
    case DmDel(d, ks) => [d] + ks
    case DmExpire(d, k, n) => [d, k, IntText(n)]
    case DmPexpire(d, k, n) => [d, k, IntText(n)]
    case DmIncr(d, k, n) => [d, k, IntText(n)]
    case DmDecr(d, k, n) => [d, k, IntText(n)]
    case DmGetPut(d, k, v) => [d, k, v]
    case DmDestroy(d) => [d]
    case DmScan(p, d, n, _) => [IntText(p), d, IntText(n)]
    case InternalUpdateRouting(b) => [b]
    case InternalLengthOfPart(p) => [IntText(p)]
    case InternalGetWithTs(d, k) => [d, k]
    case InternalMoveFragment(p, t, d, b) => [IntText(p), if t.Primary? then IntText(0) else IntText(1), d, b]
    case InternalPublish(ch, m) => [ch, m]
    case Subscribe(cs) => cs
    case Psubscribe(ps) => ps
    case Unsubscribe(cs) => cs
    case Punsubscribe(ps) => ps
    case Publish(ch, m) => [ch, m]
    case PubsubChannels(p) => if p.None? then [Ascii("CHANNELS")] else [Ascii("CHANNELS"), p.value]
    case PubsubNumsub(cs) => [Ascii("NUMSUB")] + cs
    case PubsubNumpat => [Ascii("NUMPAT")]
    case _ => []
  }

  lemma {:induction false} UtilityWord(c: Command)
    requires FamilyOf(VerbOfCommand(c)) == Utility
    ensures VerbName(VerbOfCommand(c)) == WordOf(c)
  {
    match c
    case Ping(_) => assert VerbName(VPing) == "PING";
    case Auth(_, _) => assert VerbName(VAuth) == "AUTH";
    case Hello(_) => assert VerbName(VHello) == "HELLO";
    case Quit => assert VerbName(VQuit) == "QUIT";
    case Stats => assert VerbName(VStats) == "STATS";
  }

  lemma {:induction false} DataWord(c: Command)
    requires FamilyOf(VerbOfCommand(c)) == Data
    ensures VerbName(VerbOfCommand(c)) == WordOf(c)
  {
    match c
    case DmPut(_, _, _, _) => assert VerbName(VDmPut) == "DM.PUT";
    case DmGet(_, _) => assert VerbName(VDmGet) == "DM.GET";
    case DmDel(_, _) => assert VerbName(VDmDel) == "DM.DEL";
    case DmExpire(_, _, _) => assert VerbName(VDmExpire) == "DM.EXPIRE";
    case DmPexpire(_, _, _) => assert VerbName(VDmPexpire) == "DM.PEXPIRE";
    case DmIncr(_, _, _) => assert VerbName(VDmIncr) == "DM.INCR";
    case DmDecr(_, _, _) => assert VerbName(VDmDecr) == "DM.DECR";
    case DmGetPut(_, _, _) => assert VerbName(VDmGetPut) == "DM.GETPUT";
    case DmDestroy(_) => assert VerbName(VDmDestroy) == "DM.DESTROY";
    case DmScan(_, _, _, _) => assert VerbName(VDmScan) == "DM.SCAN";
  }

  lemma {:induction false} ClusterWord(c: Command)
    requires FamilyOf(VerbOfCommand(c)) == Cluster
    ensures VerbName(VerbOfCommand(c)) == WordOf(c)
  {
    match c
    case ClusterMembers => assert VerbName(VClusterMembers) == "CLUSTER.MEMBERS";
    case ClusterRoutingTable => assert VerbName(VClusterRoutingTable) == "CLUSTER.ROUTINGTABLE";
    case ClusterReady => assert VerbName(VClusterReady) == "CLUSTER.READY";
    case InternalPublish(_, _) => assert VerbName(VInternalPublish) == "INTERNAL.NODE.PUBLISH";
  }

  lemma {:induction false} InternalWord(c: Command)
    requires FamilyOf(VerbOfCommand(c)) == Internal
    ensures VerbName(VerbOfCommand(c)) == WordOf(c)
  {
    match c
    case InternalUpdateRouting(_) => assert VerbName(VUpdateRouting) == "INTERNAL.NODE.UPDATEROUTING";
    case InternalLengthOfPart(_) => assert VerbName(VLengthOfPart) == "INTERNAL.NODE.LENGTHOFPART";
    case InternalGetWithTs(_, _) => assert VerbName(VGetWithTs) == "INTERNAL.NODE.GETWITHTS";
    case InternalMoveFragment(_, _, _, _) => assert VerbName(VMoveFragment) == "INTERNAL.NODE.MOVEFRAGMENT";
  }

  lemma {:induction false} PubSubWord(c: Command)
    requires FamilyOf(VerbOfCommand(c)) == PubSub
    ensures VerbName(VerbOfCommand(c)) == WordOf(c)
  {
  }

  lemma {:induction false} WordIsVerb(c: Command)
    ensures VerbName(VerbOfCommand(c)) == WordOf(c)
  {
    match FamilyOf(VerbOfCommand(c))
    case Utility => UtilityWord(c);
    case Data => DataWord(c);
    case Cluster => ClusterWord(c);
    case Internal => InternalWord(c);
    case PubSub => PubSubWord(c);
  }

  lemma {:induction false} ListArguments(c: Command)
    requires c.DmDel? || c.Subscribe? || c.Psubscribe? || c.Unsubscribe? || c.Punsubscribe? || c.PubsubNumsub?
    ensures ToArgs(c) != [] && ToArgs(c)[1..] == ArgumentsOf(c)
  {
  }

  lemma {:induction false} PrefixArguments(base: seq<Arg>, args: seq<Arg>, rest: seq<Arg>)
    requires base <= args && base != [] && base[1..] == rest
    ensures args != [] && rest <= args[1..]
  {
    assert forall i | 0 <= i < |rest| :: rest[i] == base[i + 1];
  }

  lemma {:induction false} PutArguments(c: Command)
    requires c.DmPut?
    ensures ToArgs(c) != [] && ArgumentsOf(c) <= ToArgs(c)[1..]
  {
    var base := [VerbText(VDmPut), c.dmap, c.key, c.value];
    PutOptionsBack(base, c.options);
    PrefixArguments(base, WithPutOptions(base, c.options), [c.dmap, c.key, c.value]);
  }

  lemma {:induction false} ScanArguments(c: Command)
    requires c.DmScan?
    ensures ToArgs(c) != [] && ArgumentsOf(c) <= ToArgs(c)[1..]
  {
    var base := [VerbText(VDmScan), IntText(c.partitionId), c.dmap, IntText(c.cursor)];
    ScanOptionsBack(base, c.scan);
    PrefixArguments(base, WithScanOptions(base, c.scan), [IntText(c.partitionId), c.dmap, IntText(c.cursor)]);
  }

  lemma {:induction false} FixedArguments(c: Command)
    requires Bare(c) || TwoOrThreeArgs(c) || c.PubsubChannels? || c.PubsubNumpat?
    ensures ToArgs(c) != [] && ToArgs(c)[1..] == ArgumentsOf(c)
  {
  }

  lemma {:induction false} NumberArguments(c: Command)
    requires c.DmExpire? || c.DmPexpire? || c.DmIncr? || c.DmDecr? || c.InternalLengthOfPart? || c.InternalMoveFragment?
    ensures ToArgs(c) != [] && ToArgs(c)[1..] == ArgumentsOf(c)
  {
  }

  /** On the wire a command is its word, then its arguments in their order, then its options. */
  lemma {:induction false} WireForm(c: Command)
    ensures ToArgs(c) != [] && ToArgs(c)[0] == Ascii(WordOf(c))
    ensures ArgumentsOf(c) <= ToArgs(c)[1..]
    ensures !c.Hello? && !c.DmPut? && !c.DmScan? ==> ToArgs(c)[1..] == ArgumentsOf(c)
  {
    VerbParsesBack(c);
    WordIsVerb(c);
    if c.DmPut? {
      PutArguments(c);
    } else if c.DmScan? {
      ScanArguments(c);
    } else if Bare(c) || TwoOrThreeArgs(c) || c.PubsubChannels? || c.PubsubNumpat? {
      FixedArguments(c);
    } else if c.DmDel? || c.Subscribe? || c.Psubscribe? || c.Unsubscribe? || c.Punsubscribe? || c.PubsubNumsub? {
      ListArguments(c);
    } else if !c.Hello? {
      NumberArguments(c);
    }
  }
}
