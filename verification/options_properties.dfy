/**
 Properties of the C++ viewer's command-line resolution: which outcomes the
 option loop can produce, that the options after the stopping one are never
 read, that `-s` and `-a` commute, and that the default blocks after the
 required-argument checks can never fire.
 */
module OptionProperties {
  import opened CTypes
  import opened Options

  /** Option j reads the same name and value in both command lines. */
  predicate SameOption(a1: seq<string>, a2: seq<string>, j: nat)
    requires j < OptionCount(a1) && j < OptionCount(a2)
  {
    Name(a1, j) == Name(a2, j) && Value(a1, j) == Value(a2, j)
  }

  /** Options of an even-length prefix keep their names and values when more
      entries follow. */
  lemma PrefixOptions(pre: seq<string>, rest: seq<string>, j: nat)
    requires |pre| % 2 == 0
    requires j < |pre| / 2
    ensures j < OptionCount(pre) && j < OptionCount(pre + rest)
    ensures SameOption(pre, pre + rest, j)
  {
  }

  /** Options that agree from k0 on keep `Last` agreeing from k0 on. */
  lemma {:induction false} LastAgreeFrom(a1: seq<string>, a2: seq<string>, k0: nat, k: nat, f: Filter)
    requires k0 <= k <= OptionCount(a1) && k <= OptionCount(a2)
    requires Last(a1, k0, f) == Last(a2, k0, f)
    requires forall j :: k0 <= j < k ==> SameOption(a1, a2, j)
    ensures Last(a1, k, f) == Last(a2, k, f)
    decreases k - k0
  {
    if k > k0 {
      LastAgreeFrom(a1, a2, k0, k - 1, f);
      assert SameOption(a1, a2, k - 1);
    }
  }

  /** Agreement on every field's `Last` gives the same settings. */
  lemma LoopStateFromLast(a1: seq<string>, a2: seq<string>, k: nat)
    requires k <= OptionCount(a1) && k <= OptionCount(a2)
    requires forall f: Filter :: Last(a1, k, f) == Last(a2, k, f)
    ensures LoopState(a1, k) == LoopState(a2, k)
  {
    assert Last(a1, k, AddrValues) == Last(a2, k, AddrValues);
    assert Last(a1, k, PipelineValues) == Last(a2, k, PipelineValues);
    assert Last(a1, k, StreamValues) == Last(a2, k, StreamValues);
    assert Last(a1, k, AddressingStreams) == Last(a2, k, AddressingStreams);
    assert Last(a1, k, UdpStreams) == Last(a2, k, UdpStreams);
  }

  /** The settings after k options depend only on those k options. */
  lemma LoopStateAgree(a1: seq<string>, a2: seq<string>, k: nat)
    requires k <= OptionCount(a1) && k <= OptionCount(a2)
    requires forall j :: 0 <= j < k ==> SameOption(a1, a2, j)
    ensures LoopState(a1, k) == LoopState(a2, k)
  {
    forall f: Filter
      ensures Last(a1, k, f) == Last(a2, k, f)
    {
      LastAgreeFrom(a1, a2, 0, k, f);
    }
    LoopStateFromLast(a1, a2, k);
  }

  /** The loop stops at s when every earlier option continues and option s
      (if any) does not. */
  lemma StopIndexIs(args: seq<string>, s: nat)
    requires s <= OptionCount(args)
    requires forall j :: 0 <= j < s ==> Continues(args, j)
    requires s < OptionCount(args) ==> !Continues(args, s)
    ensures StopIndex(args) == s
  {
  }

  /** The loop result depends only on the options up to and including the
      stopping one. */
  lemma ScanAgree(a1: seq<string>, a2: seq<string>, t: nat)
    requires StopIndex(a1) == t && StopIndex(a2) == t
    requires t <= OptionCount(a1) && t <= OptionCount(a2)
    requires LoopState(a1, t) == LoopState(a2, t)
    requires t == OptionCount(a1) <==> t == OptionCount(a2)
    requires t < OptionCount(a1) ==> SameOption(a1, a2, t)
    ensures ScanOptions(a1) == ScanOptions(a2)
  {
  }

  /** The option that ends the loop decides the outcome, and nothing after
      it is read: `-h` gives Help, `-s` with an unknown protocol, `-p` with an
      unknown profile and any unknown option give the matching failure, and a
      `-p` ignores every entry that follows its value. */
  lemma StopOptionDecides(pre: seq<string>, a: string, v: string, rest: seq<string>)
    requires |pre| % 2 == 0
    requires EveryOptionContinues(pre)
    requires !ContinuesWith(a, v)
    ensures IsHelpFlag(a) ==> Resolve(pre + [a, v] + rest) == Help
    ensures IsStreamFlag(a) ==> Resolve(pre + [a, v] + rest) == Invalid(UnknownProtocol(v))
    ensures IsProfileFlag(a) && !IsProfileName(v) ==> Resolve(pre + [a, v] + rest) == Invalid(UnknownProfile(v))
    ensures !IsKnownFlag(a) ==> Resolve(pre + [a, v] + rest) == Invalid(UnknownOption(a))
    ensures Resolve(pre + [a, v] + rest) == Resolve(pre + [a, v])
  {
    var m := |pre| / 2;
    var args, short := pre + [a, v] + rest, pre + [a, v];
    assert args == short + rest;
    forall j | 0 <= j < m
      ensures SameOption(pre, args, j) && SameOption(pre, short, j) && SameOption(args, short, j)
      ensures Continues(args, j) && Continues(short, j)
    {
      assert Continues(pre, j);
      PrefixOptions(pre, [a, v] + rest, j);
      PrefixOptions(pre, [a, v], j);
      assert pre + ([a, v] + rest) == args;
    }
    assert Name(args, m) == a && Value(args, m) == v;
    assert Name(short, m) == a && Value(short, m) == v;
    StopIndexIs(args, m);
    StopIndexIs(short, m);
    LoopStateAgree(args, pre, m);
    LoopStateAgree(short, pre, m);
    ScanAgree(args, short, m);
  }

  /** Help is the outcome exactly when some `-h` is reached, that is, every
      option before it continued the loop. An `-h` read as another option's
      value does not count. */
  lemma HelpIff(args: seq<string>)
    ensures Resolve(args) == Help <==>
      exists k :: 0 <= k < OptionCount(args) && IsHelpFlag(Name(args, k))
        && forall j :: 0 <= j < k ==> Continues(args, j)
  {
    if exists k :: 0 <= k < OptionCount(args) && IsHelpFlag(Name(args, k))
        && forall j :: 0 <= j < k ==> Continues(args, j) {
      var k :| 0 <= k < OptionCount(args) && IsHelpFlag(Name(args, k))
        && forall j :: 0 <= j < k ==> Continues(args, j);
      StopIndexIs(args, k);
    }
    if Resolve(args) == Help {
      var s := StopIndex(args);
      assert s < OptionCount(args) && IsHelpFlag(Name(args, s));
    }
  }

  /** Whenever the required-argument checks pass, the sink is known and either
      has an address or is the display sink, so neither default block changes
      anything. */
  lemma DefaultsUnreachable(args: seq<string>)
    ensures ScanOptions(args).Completed? && PassesChecks(ScanOptions(args).settings) ==>
      var st := ScanOptions(args).settings;
      && st.stream != ""
      && (st.addr != "" || st.stream == "autovideosink")
      && WithDefaults(st) == st
  {
    var s := StopIndex(args);
    var n := OptionCount(args);
    if s == n && PassesChecks(LoopState(args, n)) {
      var st := LoopState(args, n);
      LastIsLastSelected(args, n, StreamValues);
      LastIsLastSelected(args, n, AddressingStreams);
      var w := Last(args, n, StreamValues).value;
      var j :| 0 <= j < n && Selects(StreamValues, Name(args, j), Value(args, j)) && Value(args, j) == w;
      assert Continues(args, j);
      if w != "auto" {
        assert Selects(AddressingStreams, Name(args, j), Value(args, j));
        assert st.needsAddr;
      }
    }
  }

  /** A completed scan whose settings need no defaults yields their assembly. */
  lemma CompletedAssembles(args: seq<string>, st: Settings)
    requires ScanOptions(args) == Completed(st)
    requires st.customPipeline == "" && PassesChecks(st) && WithDefaults(st) == st
    ensures Resolve(args) == Pipeline(Assemble(st))
  {
  }

  /** `-p viewer` alone gives the display pipeline, with its leading space. */
  lemma ViewerProfileSuffix()
    ensures Resolve(["-p", "viewer"]) == Pipeline(" queue ! decodebin ! autovideosink sync=false")
  {
    var args := ["-p", "viewer"];
    assert Name(args, 0) == "-p" && Value(args, 0) == "viewer";
    StopIndexIs(args, 0);
    assert LoopState(args, 0) == Initial;
    var st := ApplyProfile(Initial, "viewer");
    assert ScanOptions(args) == Completed(st);
    CompletedAssembles(args, st);
    assert Assemble(st) == " " + ("queue ! decodebin" + " ! ") + "autovideosink" + (" " + "sync=false");
    ViewerText();
  }

  /** The options `-s udp` and `-a h`, in either order. */
  predicate UdpAddressed(args: seq<string>, h: string) {
    args == ["-s", "udp", "-a", h] || args == ["-a", h, "-s", "udp"]
  }

  /** The settings after `-s udp` and `-a h`, in either order. */
  lemma UdpAddressSettings(args: seq<string>, h: string)
    requires UdpAddressed(args, h)
    ensures OptionCount(args) == 2 && StopIndex(args) == 2
    ensures LoopState(args, 2) == Initial.(stream := "udpsink", needsAddr := true, addrType := "host=",
      addr := h, portType := "port=", port := "5000")
  {
    assert OptionCount(args) == 2;
    assert {Name(args, 0), Name(args, 1)} == {"-s", "-a"};
    assert Continues(args, 0) && Continues(args, 1);
    StopIndexIs(args, 2);
    assert Last(args, 1, PipelineValues) == None;
    assert Last(args, 2, PipelineValues) == None;
    assert Last(args, 2, StreamValues) == Some("udp");
    assert Last(args, 2, AddressingStreams) == Some("udp");
    assert Last(args, 2, UdpStreams) == Some("udp");
    assert Last(args, 2, AddrValues) == Some(h);
    assert SinkName("udp") == "udpsink";
  }

  /** `-s udp -a H` gives a UDP sink to H on the default port, in either order. */
  lemma UdpStreamSuffix(args: seq<string>, h: string)
    requires UdpAddressed(args, h) && h != ""
    ensures Resolve(args) == Pipeline(" udpsink host=" + h + " port=5000")
  {
    var st := UdpSettings(h);
    UdpAddressSettings(args, h);
    assert ScanOptions(args) == Completed(st);
    UdpAssembles(h);
    CompletedAssembles(args, st);
  }

  /** The settings `-s udp -a H` leave, in either order. */
  function UdpSettings(h: string): Settings {
    Initial.(stream := "udpsink", needsAddr := true, addrType := "host=", addr := h, portType := "port=", port := "5000")
  }

  /** Those settings pass the checks and assemble to a UDP sink on port 5000. */
  lemma UdpAssembles(h: string)
    requires h != ""
    ensures var st := UdpSettings(h);
      && st.customPipeline == "" && PassesChecks(st) && WithDefaults(st) == st
      && Assemble(st) == " udpsink host=" + h + " port=5000"
  {
    var st := UdpSettings(h);
    assert Assemble(st) == " " + "udpsink" + (" " + "host=" + h) + (" " + "port=" + "5000");
    UdpText(h);
  }

  /** A profile keeps what earlier options set and it does not overwrite:
      `-s udp -a H -p viewer` sends the display sink a host and a port. */
  lemma ViewerKeepsEarlierAddress(h: string)
    requires h != ""
    ensures Resolve(["-s", "udp", "-a", h, "-p", "viewer"])
      == Pipeline(" queue ! decodebin ! autovideosink host=" + h + " port=5000 sync=false")
  {
    var pre := ["-s", "udp", "-a", h];
    var args := pre + ["-p", "viewer"];
    assert args == ["-s", "udp", "-a", h, "-p", "viewer"];
    UdpAddressSettings(pre, h);
    ProfileAfterPrefix(pre, "viewer");
    var st := ApplyProfile(LoopState(pre, 2), "viewer");
    assert st == Initial.(pre := "queue ! decodebin", stream := "autovideosink", needsAddr := true,
      addrType := "host=", addr := h, portType := "port=", port := "5000", streamOpts := "sync=false",
      profileGiven := true);
    CompletedAssembles(args, st);
    assert Assemble(st) == " " + ("queue ! decodebin" + " ! ") + "autovideosink" + (" " + "host=" + h)
      + (" " + "port=" + "5000") + (" " + "sync=false");
    ViewerAddressText(h);
  }

  /** The display branch up to its sink, piece by piece. */
  lemma DisplayHeadText()
    ensures " " + ("queue ! decodebin" + " ! ") + "autovideosink" == " queue ! decodebin ! autovideosink"
  {
    var a, b := " " + ("queue ! decodebin" + " ! "), " queue ! decodebin ! ";
    forall i | 0 <= i < |b| ensures a[i] == b[i] {}
    var c, d := b + "autovideosink", " queue ! decodebin ! autovideosink";
    forall i | 0 <= i < |d| ensures c[i] == d[i] {}
  }

  lemma SyncText()
    ensures " queue ! decodebin ! autovideosink" + (" " + "sync=false") == " queue ! decodebin ! autovideosink sync=false"
  {
    var a := " queue ! decodebin ! autovideosink" + (" " + "sync=false");
    var b := " queue ! decodebin ! autovideosink sync=false";
    forall i | 0 <= i < |b| ensures a[i] == b[i] {}
  }

  /** The display suffix text, piece by piece. */
  lemma ViewerText()
    ensures " " + ("queue ! decodebin" + " ! ") + "autovideosink" + (" " + "sync=false")
      == " queue ! decodebin ! autovideosink sync=false"
  {
    DisplayHeadText();
    SyncText();
  }

  /** The udp suffix text, piece by piece. */
  lemma UdpText(h: string)
    ensures " " + "udpsink" + (" " + "host=" + h) + (" " + "port=" + "5000") == " udpsink host=" + h + " port=5000"
  {
    var a, b := " " + "udpsink" + " " + "host=", " udpsink host=";
    forall i | 0 <= i < |b| ensures a[i] == b[i] {}
    var c, d := " " + "port=" + "5000", " port=5000";
    forall i | 0 <= i < |d| ensures c[i] == d[i] {}
  }

  lemma HostText()
    ensures " queue ! decodebin ! autovideosink" + " " + "host=" == " queue ! decodebin ! autovideosink host="
  {
    var a := " queue ! decodebin ! autovideosink" + " " + "host=";
    var b := " queue ! decodebin ! autovideosink host=";
    forall i | 0 <= i < |b| ensures a[i] == b[i] {}
  }

  lemma PortSyncText()
    ensures " " + "port=" + "5000" + " " + "sync=false" == " port=5000 sync=false"
  {
    var a, b := " " + "port=" + "5000" + " " + "sync=false", " port=5000 sync=false";
    forall i | 0 <= i < |b| ensures a[i] == b[i] {}
  }

  /** The display-sink-with-address suffix text, piece by piece. */
  lemma ViewerAddressText(h: string)
    ensures " " + ("queue ! decodebin" + " ! ") + "autovideosink" + (" " + "host=" + h)
      + (" " + "port=" + "5000") + (" " + "sync=false")
      == " queue ! decodebin ! autovideosink host=" + h + " port=5000 sync=false"
  {
    DisplayHeadText();
    HostText();
    PortSyncText();
    var x := " queue ! decodebin ! autovideosink";
    assert x + (" " + "host=" + h) == x + " " + "host=" + h;
    assert (" " + "port=" + "5000") + (" " + "sync=false") == " " + "port=" + "5000" + " " + "sync=false";
  }

  /** A valid profile after a prefix of continuing options completes the scan
      with the profile applied to the prefix's settings. */
  lemma ProfileAfterPrefix(pre: seq<string>, v: string)
    requires |pre| % 2 == 0
    requires EveryOptionContinues(pre)
    requires IsProfileName(v)
    ensures ScanOptions(pre + ["-p", v]) == Completed(ApplyProfile(LoopState(pre, |pre| / 2), v))
  {
    var m := |pre| / 2;
    var args := pre + ["-p", v];
    forall j | 0 <= j < m
      ensures SameOption(pre, args, j) && Continues(args, j)
    {
      assert Continues(pre, j);
      PrefixOptions(pre, ["-p", v], j);
    }
    assert Name(args, m) == "-p" && Value(args, m) == v;
    StopIndexIs(args, m);
    LoopStateAgree(pre, args, m);
  }

  /** `needs_addr` is never reset: a later `-s auto` still demands an address. */
  lemma NeedsAddrNeverReset()
    ensures Resolve(["-s", "udp", "-s", "auto"]) == Invalid(MissingAddress("autovideosink"))
  {
    var args := ["-s", "udp", "-s", "auto"];
    assert Continues(args, 0) && Continues(args, 1);
    StopIndexIs(args, 2);
    assert Last(args, 2, StreamValues) == Some("auto");
    assert Last(args, 2, AddressingStreams) == Some("udp");
    assert Last(args, 2, AddrValues) == None;
    assert Last(args, 2, PipelineValues) == None;
  }

  /** Every option swallows the next entry, even `-h`: `-a -h` sets the
      address to "-h" and then fails for want of a sink. */
  lemma OptionSwallowsHelp()
    ensures Resolve(["-a", "-h"]) == Invalid(MissingRequired)
    ensures Resolve(["-x", "-h"]) == Invalid(UnknownOption("-x"))
  {
    StopIndexIs(["-a", "-h"], 1);
    StopIndexIs(["-x", "-h"], 0);
  }

  /** A `-P` after options that all continue the loop is itself read, and
      sets the custom pipeline. */
  lemma CustomReached(pre: seq<string>, c: string)
    requires |pre| % 2 == 0
    requires EveryOptionContinues(pre)
    ensures OptionCount(pre + ["-P", c]) == |pre| / 2 + 1
    ensures forall j :: 0 <= j < |pre| / 2 + 1 ==> Continues(pre + ["-P", c], j)
    ensures LoopState(pre + ["-P", c], |pre| / 2 + 1).customPipeline == c
  {
    var m := |pre| / 2;
    var withCustom := pre + ["-P", c];
    forall j | 0 <= j < m
      ensures SameOption(pre, withCustom, j)
    {
      PrefixOptions(pre, ["-P", c], j);
    }
    assert Name(withCustom, m) == "-P" && Value(withCustom, m) == c;
    forall j | 0 <= j < m + 1
      ensures Continues(withCustom, j)
    {
      if j < m {
        assert Continues(pre, j);
      }
    }
    LoopStateAgree(pre, withCustom, m);
    LastStep(withCustom, m, PipelineValues);
  }

  /** When the loop ends, by running out of options or at a valid `-p`, with
      a custom pipeline set, that pipeline is the result. */
  lemma ResolveCustom(args: seq<string>, s: nat)
    requires StopIndex(args) == s && LoopState(args, s).customPipeline != ""
    requires s < OptionCount(args) ==> IsProfileFlag(Name(args, s)) && IsProfileName(Value(args, s))
    ensures Resolve(args) == Pipeline(LoopState(args, s).customPipeline)
  {
  }

  /** A non-empty `-P` value reached by the loop is the suffix, verbatim,
      whatever else was given (even a protocol without its address) and
      whether or not a valid profile follows it. */
  lemma CustomPipelineVerbatim(pre: seq<string>, c: string, tail: seq<string>)
    requires |pre| % 2 == 0
    requires EveryOptionContinues(pre)
    requires c != ""
    requires tail == [] || (|tail| >= 2 && IsProfileFlag(tail[0]) && IsProfileName(tail[1]))
    ensures Resolve(pre + ["-P", c] + tail) == Pipeline(c)
  {
    var m := |pre| / 2;
    var withCustom := pre + ["-P", c];
    var args := withCustom + tail;
    CustomReached(pre, c);
    if tail == [] {
      assert args == withCustom;
      StopIndexIs(withCustom, m + 1);
      ResolveCustom(withCustom, m + 1);
    } else {
      forall j | 0 <= j < m + 1
        ensures SameOption(withCustom, args, j) && Continues(args, j)
      {
        PrefixOptions(withCustom, tail, j);
        assert Continues(withCustom, j);
      }
      assert Name(args, m + 1) == tail[0] && Value(args, m + 1) == tail[1];
      StopIndexIs(args, m + 1);
      LoopStateAgree(withCustom, args, m + 1);
      ResolveCustom(args, m + 1);
    }
  }

  /** The two command lines differ only in options m and m + 1, which are
      `-s P` then `-a H` in the first and the other way round in the second. */
  predicate Swapped(a1: seq<string>, a2: seq<string>, m: nat, p: string, h: string) {
    && OptionCount(a1) == OptionCount(a2) && m + 2 <= OptionCount(a1)
    && Name(a1, m) == "-s" && Value(a1, m) == p && Name(a1, m + 1) == "-a" && Value(a1, m + 1) == h
    && Name(a2, m) == "-a" && Value(a2, m) == h && Name(a2, m + 1) == "-s" && Value(a2, m + 1) == p
    && forall j :: 0 <= j < OptionCount(a1) && j != m && j != m + 1 ==> SameOption(a1, a2, j)
  }

  lemma SwappedLayout(pre: seq<string>, p: string, h: string, post: seq<string>)
    requires |pre| % 2 == 0
    ensures Swapped(pre + ["-s", p, "-a", h] + post, pre + ["-a", h, "-s", p] + post, |pre| / 2, p, h)
  {
    var m := |pre| / 2;
    var a1, a2 := pre + ["-s", p, "-a", h] + post, pre + ["-a", h, "-s", p] + post;
    assert |a1| == |a2|;
    forall j | 0 <= j < OptionCount(a1) && j != m && j != m + 1
      ensures SameOption(a1, a2, j)
    {
      if j < m {
        assert a1[2 * j] == pre[2 * j] == a2[2 * j];
        assert a1[2 * j + 1] == pre[2 * j + 1] == a2[2 * j + 1];
      } else {
        assert a1[2 * j] == post[2 * j - |pre| - 4] == a2[2 * j];
        if 2 * j + 1 < |a1| {
          assert a1[2 * j + 1] == post[2 * j + 1 - |pre| - 4] == a2[2 * j + 1];
        }
      }
    }
  }

  /** No field is set both by a `-s` and by an `-a`. */
  lemma StreamAddrDisjoint(f: Filter, p: string, h: string)
    ensures !(Selects(f, "-s", p) && Selects(f, "-a", h))
  {
    assert !IsAddrFlag("-s") && !IsStreamFlag("-a");
  }

  /** The swapped pair leaves every field as the unswapped pair does. */
  lemma SwappedPair(a1: seq<string>, a2: seq<string>, m: nat, p: string, h: string, f: Filter)
    requires Swapped(a1, a2, m, p, h)
    ensures Last(a1, m + 2, f) == Last(a2, m + 2, f)
  {
    LastAgreeFrom(a1, a2, 0, m, f);
    StreamAddrDisjoint(f, p, h);
    LastStep(a1, m, f);
    LastStep(a1, m + 1, f);
    LastStep(a2, m, f);
    LastStep(a2, m + 1, f);
  }

  /** After the swapped pair, every field agrees again. */
  lemma SwappedLast(a1: seq<string>, a2: seq<string>, m: nat, p: string, h: string, t: nat, f: Filter)
    requires Swapped(a1, a2, m, p, h)
    requires m + 2 <= t <= OptionCount(a1)
    ensures Last(a1, t, f) == Last(a2, t, f)
  {
    SwappedPair(a1, a2, m, p, h, f);
    LastAgreeFrom(a1, a2, m + 2, t, f);
  }

  /** Swapping `-s P` (with P a protocol) and `-a H` does not change which
      options continue the loop. */
  lemma SwappedContinues(a1: seq<string>, a2: seq<string>, m: nat, p: string, h: string)
    requires Swapped(a1, a2, m, p, h) && IsProtocol(p)
    ensures forall j :: 0 <= j < OptionCount(a1) ==> (Continues(a1, j) <==> Continues(a2, j))
  {
    forall j | 0 <= j < OptionCount(a1)
      ensures Continues(a1, j) <==> Continues(a2, j)
    {
      if j != m && j != m + 1 {
        assert SameOption(a1, a2, j);
      }
    }
  }

  /** Swapped command lines reach the same settings at any point of the loop. */
  lemma SwappedState(a1: seq<string>, a2: seq<string>, m: nat, p: string, h: string, t: nat)
    requires Swapped(a1, a2, m, p, h)
    requires t <= m || m + 2 <= t <= OptionCount(a1)
    ensures LoopState(a1, t) == LoopState(a2, t)
  {
    if t <= m {
      LoopStateAgree(a1, a2, t);
    } else {
      forall f: Filter
        ensures Last(a1, t, f) == Last(a2, t, f)
      {
        SwappedLast(a1, a2, m, p, h, t, f);
      }
      LoopStateFromLast(a1, a2, t);
    }
  }

  /** With P not a protocol, both command lines stop at the `-s P`, or at an
      earlier option they share, with the same result. */
  lemma SwappedUnknownProtocol(a1: seq<string>, a2: seq<string>, m: nat, p: string, h: string)
    requires Swapped(a1, a2, m, p, h) && !IsProtocol(p)
    ensures ScanOptions(a1) == ScanOptions(a2)
  {
    var t := StopIndex(a1);
    assert !Continues(a1, m);
    assert t <= m;
    forall j | 0 <= j < t
      ensures Continues(a2, j)
    {
      assert j < m && Continues(a1, j);
      assert SameOption(a1, a2, j);
    }
    if t < m {
      assert SameOption(a1, a2, t);
      StopIndexIs(a2, t);
      LoopStateAgree(a1, a2, t);
      ScanAgree(a1, a2, t);
    } else {
      assert Continues(a2, m) && !Continues(a2, m + 1);
      StopIndexIs(a2, m + 1);
      assert ScanOptions(a1) == Stopped(EarlyExit("-s", p));
    }
  }

  /** Adjacent `-s P` and `-a H` commute, wherever they stand and whatever
      surrounds them: `-a` and `-s` set disjoint fields, and a `-s` with an
      unknown protocol ends the loop the same way in either order. */
  lemma StreamAddrCommute(pre: seq<string>, p: string, h: string, post: seq<string>)
    requires |pre| % 2 == 0
    ensures Resolve(pre + ["-s", p, "-a", h] + post) == Resolve(pre + ["-a", h, "-s", p] + post)
  {
    var m := |pre| / 2;
    var a1, a2 := pre + ["-s", p, "-a", h] + post, pre + ["-a", h, "-s", p] + post;
    SwappedLayout(pre, p, h, post);
    if !IsProtocol(p) {
      SwappedUnknownProtocol(a1, a2, m, p, h);
      return;
    }
    SwappedContinues(a1, a2, m, p, h);
    var t := StopIndex(a1);
    StopIndexIs(a2, t);
    if m < t {
      assert Continues(a1, m) && Continues(a1, m + 1);
    }
    SwappedState(a1, a2, m, p, h, t);
    ScanAgree(a1, a2, t);
  }
}
