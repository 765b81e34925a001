/**
 The graph description `gst_src_init` hands to `gst_parse_launch`, and the
 capabilities it then declares on the ingress element.

 The description is formatted with `snprintf` into a buffer of
 MAX_PIPELINE_LEN bytes: the fixed ingestion prefix, the caller's suffix and a
 trailing space, cut to MAX_PIPELINE_LEN - 1 characters (one byte is kept for
 the terminating NUL). Characters stand for the C string's bytes.
 */
module GraphDescription {

  const MaxPipelineLen: nat := 1024

  /** Ingress element, buffering stage, bitstream parser (with the source's
      double space after `queue`). */
  const IngressPrefix: string := "appsrc name=ap ! queue  ! h264parse ! "

  /** The longest suffix that survives formatting intact. */
  const MaxIntactSuffix: nat := MaxPipelineLen - 1 - |IngressPrefix| - 1

  /** The untruncated text the format string would produce. */
  function FullDescription(suffix: string): string {
    IngressPrefix + suffix + " "
  }

  /** `snprintf(pipeline_str, MAX_PIPELINE_LEN, "... %s ", suffix)`. */
  function Describe(suffix: string): (d: string)
    ensures |d| <= MaxPipelineLen - 1
    ensures d <= FullDescription(suffix)
    ensures |d| == |FullDescription(suffix)| || |d| == MaxPipelineLen - 1
  {
    var full := FullDescription(suffix);
    if |full| < MaxPipelineLen then full else full[..MaxPipelineLen - 1]
  }

  /** Truncation never reaches the ingress prefix, so the element named `ap`
      that `gst_src_init` looks up is always in the description. */
  lemma DescribeKeepsIngress(suffix: string)
    ensures IngressPrefix <= Describe(suffix)
    ensures |IngressPrefix| == 38 && MaxIntactSuffix == 984
  {
    var d := Describe(suffix);
    assert |IngressPrefix| == 38;
    assert |d| >= 38;
    assert d[..38] == FullDescription(suffix)[..38] == IngressPrefix;
  }

  /** The suffix reaches the graph unchanged exactly when it has at most 984
      characters; a longer one loses its tail, including the trailing space. */
  lemma SuffixIntactIff(suffix: string)
    ensures Describe(suffix) == FullDescription(suffix) <==> |suffix| <= MaxIntactSuffix
    ensures |suffix| > MaxIntactSuffix ==> |Describe(suffix)| == MaxPipelineLen - 1
  {
    assert |IngressPrefix| == 38;
    assert |FullDescription(suffix)| == 38 + |suffix| + 1;
  }

  /** The media type declared on the ingress with `gst_app_src_set_caps`. */
  datatype Caps = Caps(media: string, framerateNum: nat, framerateDen: nat, streamFormat: string, profile: string)

  /** H.264 byte stream at 30000/1001 frames per second, constrained baseline. */
  const IngressCaps: Caps := Caps("video/x-h264", 30000, 1001, "byte-stream", "constrained-baseline")
}
