/**
 How the C viewer picks its pipeline suffix: by the name it was started
 under. The command name is what follows the last '/' of `argv[0]` (the whole
 of `argv[0]` when it has none); the name `gst_loopback` selects the
 UDP/RTP loopback suffix and every other name the local display suffix.
 */
module ProgramName {
  import opened Options
  import opened OptionProperties
  import opened GraphDescription

  const LoopbackSuffix: string :=
    " video/x-h264,width=3840,height=1920,framerate=30000/1001 ! rtph264pay ! udpsink host=192.168.43.111 port=5000"
  const ViewerSuffix: string := " queue ! decodebin ! autovideosink sync=false"

  /** Where the command name starts: one past the last '/' of `s`, or 0 when
      `s` has none. */
  function NameStart(s: string): (k: nat)
    ensures k <= |s|
    ensures forall i :: k <= i < |s| ==> s[i] != '/'
    ensures k > 0 ==> s[k - 1] == '/'
    decreases |s|
  {
    if s == [] then 0
    else if s[|s| - 1] == '/' then |s|
    else
      var k := NameStart(s[..|s| - 1]);
      assert forall i :: k <= i < |s| - 1 ==> s[i] == s[..|s| - 1][i];
      k
  }

  /** `rindex(argv0, '/')`, then one past it, or `argv0` itself. */
  function CommandName(argv0: string): (name: string)
    ensures '/' !in name
    ensures |name| <= |argv0| && argv0[|argv0| - |name|..] == name
    ensures |name| < |argv0| ==> argv0[|argv0| - |name| - 1] == '/'
  {
    var k := NameStart(argv0);
    assert forall i :: 0 <= i < |argv0| - k ==> argv0[k..][i] == argv0[k + i];
    argv0[k..]
  }

  /** Only one position has no '/' after it and a '/' (or the start) just
      before it. */
  lemma NameStartUnique(s: string, k: nat)
    requires k <= |s|
    requires forall i :: k <= i < |s| ==> s[i] != '/'
    requires k > 0 ==> s[k - 1] == '/'
    ensures NameStart(s) == k
  {
  }

  /** The command name is the only '/'-free tail that is either all of `argv0`
      or preceded by a '/': whatever directory the program is started from, it
      is recognised by its file name alone. */
  lemma CommandNameOfPath(dir: string, name: string)
    requires '/' !in name
    requires dir == [] || dir[|dir| - 1] == '/'
    ensures CommandName(dir + name) == name
  {
    var s := dir + name;
    forall i | |dir| <= i < |s|
      ensures s[i] != '/'
    {
      assert s[i] == name[i - |dir|];
    }
    NameStartUnique(s, |dir|);
    assert s[|dir|..] == name;
  }

  /** The suffix the C viewer hands to `gst_src_init`. */
  function PipelineFor(argv0: string): (suffix: string)
    ensures suffix == LoopbackSuffix <==> CommandName(argv0) == "gst_loopback"
    ensures suffix == ViewerSuffix <==> CommandName(argv0) != "gst_loopback"
  {
    if CommandName(argv0) == "gst_loopback" then LoopbackSuffix else ViewerSuffix
  }

  /** `path` spelled as a directory part followed by a file name. */
  lemma SplitPath(path: string, dir: string, name: string)
    requires |path| == |dir| + |name|
    requires forall i :: 0 <= i < |dir| ==> path[i] == dir[i]
    requires forall i :: 0 <= i < |name| ==> path[|dir| + i] == name[i]
    ensures path == dir + name
  {
  }

  /** Installed or run in place, `gst_loopback` loops back. */
  lemma LoopbackByName()
    ensures PipelineFor("/usr/local/bin/gst_loopback") == LoopbackSuffix
    ensures PipelineFor("gst_loopback") == LoopbackSuffix
  {
    var dir, name := "/usr/local/bin/", "gst_loopback";
    SplitPath("/usr/local/bin/gst_loopback", dir, name);
    CommandNameOfPath(dir, name);
    CommandNameOfPath("", name);
    assert "" + name == name;
  }

  /** A directory named `gst_loopback` does not make the viewer loop back, nor
      does a longer file name. */
  lemma ViewerByName()
    ensures PipelineFor("gst_loopback/gst_viewer") == ViewerSuffix
    ensures PipelineFor("./gst_loopback2") == ViewerSuffix
  {
    SplitPath("gst_loopback/gst_viewer", "gst_loopback/", "gst_viewer");
    CommandNameOfPath("gst_loopback/", "gst_viewer");
    SplitPath("./gst_loopback2", "./", "gst_loopback2");
    CommandNameOfPath("./", "gst_loopback2");
  }

  /** The C viewer's display suffix is exactly what the C++ viewer builds for
      `-p viewer`. */
  lemma ViewerSuffixMatchesProfile()
    ensures Resolve(["-p", "viewer"]) == Pipeline(ViewerSuffix)
  {
    ViewerProfileSuffix();
  }

  /** Both built-in suffixes reach the graph description untruncated. */
  lemma BuiltInSuffixesIntact()
    ensures Describe(LoopbackSuffix) == FullDescription(LoopbackSuffix)
    ensures Describe(ViewerSuffix) == FullDescription(ViewerSuffix)
  {
    SuffixIntactIff(LoopbackSuffix);
    SuffixIntactIff(ViewerSuffix);
  }
}
