/** The reporter's options and the screenshot capture policy. */
module Policy {
  import opened Values

  /** The folder every artifact is written under. */
  const DefaultDestination: string := "e2eReport"

  /** The options object after the reporter has filled in its defaults:
      `dest` and `filename` fall back when falsy, `captureOnlyFailedSpecs`
      is `opts.captureOnlyFailedSpecs || true`, `browserCaps` is reset to an
      empty object and `cleanDestination` keeps an own property, even a
      falsy one, and is `true` otherwise. */
  function Configure(opts: Record): (r: Record)
    ensures forall k :: k in opts ==> k in r
    ensures forall k :: k in opts && k !in {"dest", "filename", "captureOnlyFailedSpecs", "browserCaps", "cleanDestination"} ==>
      r[k] == opts[k]
  {
    var dest := Get(opts, "dest");
    var filename := Get(opts, "filename");
    var capture := Get(opts, "captureOnlyFailedSpecs");
    opts["dest" := if Truthy(dest) then dest else Str(DefaultDestination)]
        ["filename" := if Truthy(filename) then filename else Str("report.html")]
        ["captureOnlyFailedSpecs" := if Truthy(capture) then capture else Bool(true)]
        ["browserCaps" := Obj(map[])]
        ["cleanDestination" := if "cleanDestination" in opts then opts["cleanDestination"] else Bool(true)]
  }

  /** `skipScreenShotting`: no screenshot for a pending or disabled spec;
      otherwise none when the only-failed flag is truthy and the spec did not
      fail. A failed spec is always captured, a pending or disabled one
      never is. */
  predicate SkipScreenshot(options: Record, spec: Record): (skip: bool)
    ensures Get(spec, "status") == Str("failed") ==> !skip
    ensures Get(spec, "status") in {Str("pending"), Str("disabled")} ==> skip
  {
    var status := Get(spec, "status");
    if status == Str("pending") || status == Str("disabled") then true
    else !(!Truthy(Get(options, "captureOnlyFailedSpecs")) || status == Str("failed"))
  }

  /** The only-failed flag cannot be switched off: whatever the caller
      passes, even an explicit `false`, the configured flag is truthy. */
  lemma CaptureFlagAlwaysSet(opts: Record)
    ensures Truthy(Get(Configure(opts), "captureOnlyFailedSpecs"))
  {
  }

  /** With any configured options, a screenshot is skipped exactly when the
      spec did not fail: passing specs are never captured. */
  lemma SkipUnlessFailed(opts: Record, spec: Record)
    ensures SkipScreenshot(Configure(opts), spec) <==> Get(spec, "status") != Str("failed")
  {
    CaptureFlagAlwaysSet(opts);
  }

  /** The policy for any flag: pending and disabled specs are never
      captured, failed specs always are, and any other status is captured
      exactly when the flag is falsy. */
  lemma SkipTable(options: Record, spec: Record)
    ensures var status := Get(spec, "status");
      (status == Str("pending") || status == Str("disabled") ==> SkipScreenshot(options, spec)) &&
      (status == Str("failed") ==> !SkipScreenshot(options, spec)) &&
      (status !in {Str("pending"), Str("disabled"), Str("failed")} ==>
        (SkipScreenshot(options, spec) <==> Truthy(Get(options, "captureOnlyFailedSpecs"))))
  {
  }

  /** `dest` and `filename` are truthy after configuration: a truthy one is
      kept and a falsy one falls back to its default. `cleanDestination` is
      present: an own property is kept, even `false`, and `true` is the
      default. */
  lemma ConfigureDefaults(opts: Record)
    ensures Truthy(Get(Configure(opts), "dest")) && Truthy(Get(Configure(opts), "filename"))
    ensures "cleanDestination" in Configure(opts)
    ensures !Truthy(Get(opts, "dest")) ==> Get(Configure(opts), "dest") == Str(DefaultDestination)
    ensures Truthy(Get(opts, "dest")) ==> Get(Configure(opts), "dest") == Get(opts, "dest")
    ensures !Truthy(Get(opts, "filename")) ==> Get(Configure(opts), "filename") == Str("report.html")
    ensures Truthy(Get(opts, "filename")) ==> Get(Configure(opts), "filename") == Get(opts, "filename")
    ensures "cleanDestination" in opts ==> Get(Configure(opts), "cleanDestination") == opts["cleanDestination"]
    ensures "cleanDestination" !in opts ==> Get(Configure(opts), "cleanDestination") == Bool(true)
  {
  }
}
