/** The reporter: four lifecycle handlers over the identity registry, the
    running-suite pointer and the filesystem.

    Each handler catches every failure of its own body: whatever it had
    already changed stays changed, nothing propagates, and the failure goes to
    the diagnostic sink, which here is the `fault` the handler returns. The
    clock (`new Date()`) and the browser driver (`getCapabilities`,
    `takeScreenshot`) are parameters: `now` in milliseconds, and `caps` or
    `shot` as `None` when the driver call fails. */
module Reporting {
  import opened Values
  import opened Sanitizer
  import opened Paths
  import opened FileSystems
  import opened Registry
  import opened Policy

  /** What a handler reports to the diagnostic sink. */
  datatype Fault =
    | NoRunningSuite      // `runningSuite` is null
    | NotAnArray          // the running suite's `specs` has no `push`
    | NotAString          // `replaceInvalidSymbols` applied to a non-string
    | DriverFailure       // `getCapabilities` or `takeScreenshot` rejected
    | Io(code: Errno)     // `mkdir` or `writeFile` failed

  /** A finished record: `utcFinished` is now and `duration` is the time in
      seconds since `utcStarted`; no other field changes. */
  function Finished(rec: Record, now: int): (r: Record)
    ensures Get(r, "utcFinished") == Date(now)
    ensures Get(r, "duration") == ElapsedSeconds(now, Get(rec, "utcStarted"))
  {
    rec["utcFinished" := Date(now)]["duration" := ElapsedSeconds(now, Get(rec, "utcStarted"))]
  }

  /** The spec record with the browser's version, platform and name; a
      capability the driver does not report reads as `undefined`. */
  function WithCapabilities(rec: Record, caps: Record): (r: Record)
    ensures Get(r, "browserVersion") == Get(caps, "version")
    ensures Get(r, "platform") == Get(caps, "platform")
    ensures Get(r, "browserName") == Get(caps, "browserName")
  {
    rec["browserVersion" := Get(caps, "version")]
       ["platform" := Get(caps, "platform")]
       ["browserName" := Get(caps, "browserName")]
  }

  /** Finishing a record changes no field but its finish stamp and its
      duration. */
  lemma FinishedKeeps(rec: Record, now: int, f: string)
    requires f != "utcFinished" && f != "duration"
    ensures Get(Finished(rec, now), f) == Get(rec, f)
  {
  }

  /** Recording the capabilities changes no field but the three browser
      fields. */
  lemma WithCapabilitiesKeeps(rec: Record, caps: Record, f: string)
    requires f !in {"browserVersion", "platform", "browserName"}
    ensures Get(WithCapabilities(rec, caps), f) == Get(rec, f)
  {
  }

  /** `replaceInvalidSymbols(v)`: only a string has `replace`; for any
      other value the call throws. */
  function SanitizeValue(v: Value): (r: Option<string>)
    ensures r.Some? <==> v.Str?
    ensures r.Some? ==> '/' !in r.value && '.' !in r.value
  {
    if v.Str? then Some(Sanitize(v.s)) else None
  }

  /** What `specDone` leaves behind: the spec record, the filesystem and
      the fault reported, if any. */
  datatype Effect = Effect(spec: Record, entries: Entries, fault: Option<Fault>)

  /** `specDone` from the moment the spec has been upserted to `rec`, in the
      order of the source: finish stamps, capabilities, storage names, then
      the artifacts. */
  function SpecDoneEffect(rec: Record, now: int, caps: Option<Record>, shot: Option<string>,
                          options: Record, e: Entries, denied: set<Path>): (eff: Effect)
    ensures SameId(eff.spec, rec)
    ensures WellFormed(e) ==> WellFormed(eff.entries)
  {
    var finished := Finished(rec, now);
    if caps.None? then Effect(finished, e, Some(DriverFailure))
    else
      var withCaps := WithCapabilities(finished, caps.value);
      var suiteSeg := SanitizeValue(Get(withCaps, "suite"));
      var browserSeg := SanitizeValue(Get(withCaps, "browserName"));
      if suiteSeg.None? || browserSeg.None? then Effect(withCaps, e, Some(NotAString))
      else
        var directory := Join([suiteSeg.value, browserSeg.value]);
        var withDir := withCaps["suiteDirectory" := Str(directory)];
        var nameSeg := SanitizeValue(Get(withDir, "description"));
        if nameSeg.None? then Effect(withDir, e, Some(NotAString))
        else
          var named := withDir["suiteFile" := Str(nameSeg.value + ".json")];
          StoreArtifacts(named, directory, nameSeg.value, shot, options, e, denied)
  }

  /** The second half of `specDone`, once the record carries its storage
      names: ensure the directory, write the JSON file, then either mark the
      screenshot as skipped or write it. */
  function StoreArtifacts(named: Record, directory: string, name: string, shot: Option<string>,
                          options: Record, e: Entries, denied: set<Path>): (eff: Effect)
    ensures SameId(eff.spec, named)
    ensures WellFormed(e) ==> WellFormed(eff.entries)
  {
    var made := EnsureFrom(e, denied, Split(Join([DefaultDestination, directory])), 1);
    if made.outcome.Failed? then Effect(named, made.entries, Some(Io(made.outcome.code)))
    else
      var json := WriteTo(made.entries, denied, Split(Join([DefaultDestination, directory, name + ".json"])), Json(named));
      if json.outcome.Failed? then Effect(named, json.entries, Some(Io(json.outcome.code)))
      else Capture(named, directory, name, shot, options, json.entries, denied)
  }

  /** The capture decision once the JSON file is written: mark the spec as
      skipped, or take the screenshot and write it beside the JSON file. The
      filesystem either stays as it is or gains exactly that file. */
  function Capture(named: Record, directory: string, name: string, shot: Option<string>,
                   options: Record, e: Entries, denied: set<Path>): (eff: Effect)
    ensures SameId(eff.spec, named)
    ensures WellFormed(e) ==> WellFormed(eff.entries)
    ensures eff.entries == e ||
            (shot.Some? && eff.entries == e[Split(Join([DefaultDestination, directory, name + ".png"])) :=
                                              File(Image(shot.value))])
  {
    if SkipScreenshot(options, named) then
      Effect(named["skipPrinting" := Bool(true)], e, None)
    else if shot.None? then Effect(named, e, Some(DriverFailure))
    else
      var shown := named["screenFile" := Str(name + ".png")];
      var png := WriteTo(e, denied, Split(Join([DefaultDestination, directory, name + ".png"])), Image(shot.value));
      Effect(shown, png.entries, if png.outcome.Failed? then Some(Io(png.outcome.code)) else None)
  }

  /** `path.join` of the destination and the two-segment storage directory
      is the three-segment path. */
  lemma JoinNested(a: string, b: string, c: string, d: string)
    ensures Join([a, Join([b, c])]) == Join([a, b, c])
    ensures Join([a, Join([b, c]), d]) == Join([a, b, c, d])
  {
    var bc := Join([b, c]);
    assert bc == b + [Sep] + c by { assert [b, c][1..] == [c]; }
    assert Join([c, d]) == c + [Sep] + d by { assert [c, d][1..] == [d]; }
    assert Join([b, c, d]) == b + [Sep] + Join([c, d]) by { assert [b, c, d][1..] == [c, d]; }
    assert Join([a, b, c]) == a + [Sep] + bc by { assert [a, b, c][1..] == [b, c]; }
    assert Join([a, b, c, d]) == a + [Sep] + Join([b, c, d]) by { assert [a, b, c, d][1..] == [b, c, d]; }
    assert Join([bc, d]) == bc + [Sep] + d by { assert [bc, d][1..] == [d]; }
    assert Join([a, bc, d]) == a + [Sep] + Join([bc, d]) by { assert [a, bc, d][1..] == [bc, d]; }
    assert Join([a, bc]) == a + [Sep] + bc by { assert [a, bc][1..] == [bc]; }
  }

  /** Where a spec's artifacts go: under the fixed destination folder,
      whatever `dest` says, in `<suite>/<browser>/` named after the spec. */
  lemma ArtifactPaths(s: string, b: string, file: string)
    requires Sep !in s && Sep !in b && Sep !in file
    ensures Split(Join([DefaultDestination, Join([s, b])])) == [DefaultDestination, s, b]
    ensures Split(Join([DefaultDestination, Join([s, b]), file])) == [DefaultDestination, s, b, file]
  {
    JoinNested(DefaultDestination, s, b, file);
    assert Sep !in DefaultDestination;
    SplitJoin([DefaultDestination, s, b]);
    SplitJoin([DefaultDestination, s, b, file]);
  }

  /** The storage directory of a spec: when ensuring it succeeds, the three
      nested directories exist and nothing else was added. */
  lemma StorageDirectory(s: string, b: string, e: Entries, denied: set<Path>)
    requires WellFormed(e)
    requires Sep !in s && Sep !in b
    requires EnsureFrom(e, denied, Split(Join([DefaultDestination, Join([s, b])])), 1).outcome.Done?
    ensures var made := EnsureFrom(e, denied, Split(Join([DefaultDestination, Join([s, b])])), 1);
      WellFormed(made.entries) &&
      IsDir(made.entries, [DefaultDestination]) && IsDir(made.entries, [DefaultDestination, s]) &&
      IsDir(made.entries, [DefaultDestination, s, b]) &&
      (forall p :: p in e ==> p in made.entries && made.entries[p] == e[p]) &&
      (forall p :: p in made.entries && p !in e ==>
        p == [DefaultDestination] || p == [DefaultDestination, s] || p == [DefaultDestination, s, b])
  {
    var dirs := [DefaultDestination, s, b];
    ArtifactPaths(s, b, "");
    EnsureCreatesPrefixes(e, denied, dirs);
    assert dirs[..1] == [DefaultDestination] && dirs[..2] == [DefaultDestination, s] && dirs[..3] == dirs;
  }

  /** The filesystem right after the JSON file of a successful run is
      written: the three directories and the JSON file are there. */
  lemma JsonWritten(named: Record, s: string, b: string, n: string, e: Entries, denied: set<Path>)
    requires WellFormed(e)
    requires Sep !in s && Sep !in b && Sep !in n
    requires EnsureFrom(e, denied, Split(Join([DefaultDestination, Join([s, b])])), 1).outcome.Done?
    requires WriteTo(EnsureFrom(e, denied, Split(Join([DefaultDestination, Join([s, b])])), 1).entries, denied,
                     Split(Join([DefaultDestination, Join([s, b]), n + ".json"])), Json(named)).outcome.Done?
    ensures var made := EnsureFrom(e, denied, Split(Join([DefaultDestination, Join([s, b])])), 1);
      var jsonPath := [DefaultDestination, s, b, n + ".json"];
      var json := WriteTo(made.entries, denied, jsonPath, Json(named));
      Split(Join([DefaultDestination, Join([s, b]), n + ".json"])) == jsonPath &&
      json.entries == made.entries[jsonPath := File(Json(named))] &&
      IsDir(json.entries, [DefaultDestination]) && IsDir(json.entries, [DefaultDestination, s]) &&
      IsDir(json.entries, [DefaultDestination, s, b])
  {
    ArtifactPaths(s, b, n + ".json");
    StorageDirectory(s, b, e, denied);
  }

  /** A run of the artifact half that reports no fault got past the
      directory and the JSON file, and ended in the capture decision. */
  lemma StoreStages(named: Record, directory: string, name: string, shot: Option<string>,
                    options: Record, e: Entries, denied: set<Path>)
    requires StoreArtifacts(named, directory, name, shot, options, e, denied).fault.None?
    ensures var made := EnsureFrom(e, denied, Split(Join([DefaultDestination, directory])), 1);
      var json := WriteTo(made.entries, denied, Split(Join([DefaultDestination, directory, name + ".json"])), Json(named));
      made.outcome.Done? && json.outcome.Done? &&
      StoreArtifacts(named, directory, name, shot, options, e, denied) ==
        Capture(named, directory, name, shot, options, json.entries, denied)
  {
  }

  /** A successful `specDone` stores under `e2eReport/<suite>/<browser>/`
      (whatever `dest` says): the three directories exist and the JSON file
      holds the record as it was before the capture decision, so never with
      a `skipPrinting` set by this call. */
  lemma ArtifactsStored(named: Record, s: string, b: string, n: string, shot: Option<string>,
                        options: Record, e: Entries, denied: set<Path>)
    requires WellFormed(e)
    requires Sep !in s && Sep !in b && Sep !in n
    requires StoreArtifacts(named, Join([s, b]), n, shot, options, e, denied).fault.None?
    ensures var eff := StoreArtifacts(named, Join([s, b]), n, shot, options, e, denied);
      var json := [DefaultDestination, s, b, n + ".json"];
      IsDir(eff.entries, [DefaultDestination]) && IsDir(eff.entries, [DefaultDestination, s]) &&
      IsDir(eff.entries, [DefaultDestination, s, b]) &&
      json in eff.entries && eff.entries[json] == File(Json(named))
  {
    StoreStages(named, Join([s, b]), n, shot, options, e, denied);
    JsonWritten(named, s, b, n, e, denied);
    ArtifactPaths(s, b, n + ".png");
    var json := [DefaultDestination, s, b, n + ".json"];
    var png := [DefaultDestination, s, b, n + ".png"];
    assert json != png by { assert |json[3]| != |png[3]|; }
  }

  /** A skipped spec is marked with `skipPrinting` and gets no screenshot:
      the only entries added are its directories and its JSON file. */
  lemma SkippedSpecStoresOnlyJson(named: Record, s: string, b: string, n: string, shot: Option<string>,
                                  options: Record, e: Entries, denied: set<Path>)
    requires WellFormed(e)
    requires Sep !in s && Sep !in b && Sep !in n
    requires StoreArtifacts(named, Join([s, b]), n, shot, options, e, denied).fault.None?
    requires SkipScreenshot(options, named)
    ensures var eff := StoreArtifacts(named, Join([s, b]), n, shot, options, e, denied);
      eff.spec == named["skipPrinting" := Bool(true)]
    ensures var eff := StoreArtifacts(named, Join([s, b]), n, shot, options, e, denied);
      forall p :: p in eff.entries && p !in e ==>
        p == [DefaultDestination] || p == [DefaultDestination, s] || p == [DefaultDestination, s, b] ||
        p == [DefaultDestination, s, b, n + ".json"]
    ensures var eff := StoreArtifacts(named, Join([s, b]), n, shot, options, e, denied);
      var png := [DefaultDestination, s, b, n + ".png"];
      png in eff.entries <==> png in e
  {
    StoreStages(named, Join([s, b]), n, shot, options, e, denied);
    JsonWritten(named, s, b, n, e, denied);
    StorageDirectory(s, b, e, denied);
    var png := [DefaultDestination, s, b, n + ".png"];
    var json := [DefaultDestination, s, b, n + ".json"];
    assert png != json by { assert |png[3]| != |json[3]|; }
  }

  /** A spec that is not skipped has its screenshot written beside the JSON
      file, and the record names it in `screenFile`. */
  lemma CapturedSpecStoresScreenshot(named: Record, s: string, b: string, n: string, shot: Option<string>,
                                     options: Record, e: Entries, denied: set<Path>)
    requires WellFormed(e)
    requires Sep !in s && Sep !in b && Sep !in n
    requires StoreArtifacts(named, Join([s, b]), n, shot, options, e, denied).fault.None?
    requires !SkipScreenshot(options, named)
    ensures var eff := StoreArtifacts(named, Join([s, b]), n, shot, options, e, denied);
      var png := [DefaultDestination, s, b, n + ".png"];
      shot.Some? && eff.spec == named["screenFile" := Str(n + ".png")] &&
      png in eff.entries && eff.entries[png] == File(Image(shot.value))
  {
    StoreStages(named, Join([s, b]), n, shot, options, e, denied);
    JsonWritten(named, s, b, n, e, denied);
    ArtifactPaths(s, b, n + ".png");
  }

  /** A capture decision that reports a fault (no screenshot from the
      driver, or a PNG write that failed) leaves the filesystem as it found
      it; the record is either unchanged or names the screenshot file. */
  lemma CaptureFailureKeeps(named: Record, directory: string, name: string, shot: Option<string>,
                            options: Record, e: Entries, denied: set<Path>)
    requires Capture(named, directory, name, shot, options, e, denied).fault.Some?
    ensures var eff := Capture(named, directory, name, shot, options, e, denied);
      eff.entries == e &&
      (eff.spec == named || eff.spec == named["screenFile" := Str(name + ".png")])
  {
  }

  /** A storage run that fails, at the directory, the JSON write, the
      screenshot or the PNG write, leaves what the source leaves on disk:
      the record is the named one, or names its screenshot when only the PNG
      write failed; every old entry is still there and only the JSON file may
      have been overwritten; and nothing is new but the three directories and
      the JSON file. */
  lemma StoreFailureKeeps(named: Record, s: string, b: string, n: string, shot: Option<string>,
                          options: Record, e: Entries, denied: set<Path>)
    requires Sep !in s && Sep !in b && Sep !in n
    requires StoreArtifacts(named, Join([s, b]), n, shot, options, e, denied).fault.Some?
    ensures var eff := StoreArtifacts(named, Join([s, b]), n, shot, options, e, denied);
      eff.spec == named || eff.spec == named["screenFile" := Str(n + ".png")]
    ensures var eff := StoreArtifacts(named, Join([s, b]), n, shot, options, e, denied);
      var json := [DefaultDestination, s, b, n + ".json"];
      forall p :: p in e ==> p in eff.entries && (p != json ==> eff.entries[p] == e[p])
    ensures var eff := StoreArtifacts(named, Join([s, b]), n, shot, options, e, denied);
      forall p :: p in eff.entries && p !in e ==>
        p == [DefaultDestination] || p == [DefaultDestination, s] || p == [DefaultDestination, s, b] ||
        p == [DefaultDestination, s, b, n + ".json"]
  {
    var dirs := [DefaultDestination, s, b];
    var json := [DefaultDestination, s, b, n + ".json"];
    ArtifactPaths(s, b, n + ".json");
    EnsureFromKeeps(e, denied, dirs, 1);
    EnsureFromAddsPrefixes(e, denied, dirs, 1);
    assert dirs[..1] == [DefaultDestination] && dirs[..2] == [DefaultDestination, s] && dirs[..3] == dirs;
    var made := EnsureFrom(e, denied, dirs, 1);
    if made.outcome.Done? {
      var written := WriteTo(made.entries, denied, json, Json(named));
      if written.outcome.Done? {
        CaptureFailureKeeps(named, Join([s, b]), n, shot, options, written.entries, denied);
      }
    }
  }

  /** The spec record once `specDone` has named its storage: finish stamps,
      browser capabilities, the directory `<suite>/<browser>` and the JSON
      file name, over the upserted record, whose other fields stay. */
  function Named(rec: Record, now: int, caps: Record, s: string, b: string, n: string): (r: Record)
    ensures SameId(r, rec)
    ensures Get(r, "suiteDirectory") == Str(s + [Sep] + b)
    ensures Get(r, "suiteFile") == Str(n + ".json")
    ensures Get(r, "status") == Get(rec, "status")
  {
    assert Join([s, b]) == s + [Sep] + b by { assert [s, b][1..] == [b]; }
    WithCapabilities(Finished(rec, now), caps)
      ["suiteDirectory" := Str(Join([s, b]))]["suiteFile" := Str(n + ".json")]
  }

  /** The named record carries the finish stamps and the browser name, and
      keeps whatever the spec said about its screenshot. */
  lemma NamedFields(rec: Record, now: int, caps: Record, s: string, b: string, n: string)
    ensures var r := Named(rec, now, caps, s, b, n);
      Get(r, "utcFinished") == Date(now) &&
      Get(r, "duration") == ElapsedSeconds(now, Get(rec, "utcStarted")) &&
      Get(r, "browserName") == Get(caps, "browserName") &&
      Get(r, "skipPrinting") == Get(rec, "skipPrinting") &&
      Get(r, "screenFile") == Get(rec, "screenFile")
  {
    var finished := Finished(rec, now);
    FinishedKeeps(rec, now, "skipPrinting");
    FinishedKeeps(rec, now, "screenFile");
    WithCapabilitiesKeeps(finished, caps, "utcFinished");
    WithCapabilitiesKeeps(finished, caps, "duration");
    WithCapabilitiesKeeps(finished, caps, "skipPrinting");
    WithCapabilitiesKeeps(finished, caps, "screenFile");
  }

  /** The first half of `specDone` when it gets as far as the artifacts: the
      three names are strings, and the record handed on carries the finish
      stamps, the capabilities and the storage names over the upserted
      record. */
  lemma SpecDoneReachesStore(rec: Record, now: int, caps: Option<Record>, shot: Option<string>,
                             options: Record, e: Entries, denied: set<Path>)
    requires caps.Some? && Get(rec, "suite").Str? && Get(caps.value, "browserName").Str? &&
             Get(rec, "description").Str?
    ensures var s := Sanitize(Get(rec, "suite").s);
      var b := Sanitize(Get(caps.value, "browserName").s);
      var n := Sanitize(Get(rec, "description").s);
      Sep !in s && Sep !in b && Sep !in n &&
      SpecDoneEffect(rec, now, caps, shot, options, e, denied) ==
        StoreArtifacts(Named(rec, now, caps.value, s, b, n), Join([s, b]), n, shot, options, e, denied)
  {
    var cv := caps.value;
    SanitizedIsOneComponent(Get(rec, "suite").s);
    SanitizedIsOneComponent(Get(cv, "browserName").s);
    SanitizedIsOneComponent(Get(rec, "description").s);
    var s := Sanitize(Get(rec, "suite").s);
    var b := Sanitize(Get(cv, "browserName").s);
    var n := Sanitize(Get(rec, "description").s);
    var withCaps := WithCapabilities(Finished(rec, now), cv);
    assert SanitizeValue(Get(withCaps, "suite")) == Some(s);
    assert SanitizeValue(Get(withCaps, "browserName")) == Some(b);
    var withDir := withCaps["suiteDirectory" := Str(Join([s, b]))];
    assert SanitizeValue(Get(withDir, "description")) == Some(n);
    assert withDir["suiteFile" := Str(n + ".json")] == Named(rec, now, cv, s, b, n);
  }

  /** A `specDone` that reports no fault got capabilities from the driver
      and found strings in all three names. */
  lemma SpecDoneNeedsNames(rec: Record, now: int, caps: Option<Record>, shot: Option<string>,
                           options: Record, e: Entries, denied: set<Path>)
    requires SpecDoneEffect(rec, now, caps, shot, options, e, denied).fault.None?
    ensures caps.Some? && Get(rec, "suite").Str? && Get(caps.value, "browserName").Str? &&
            Get(rec, "description").Str?
  {
    if caps.Some? && !(Get(rec, "suite").Str? && Get(caps.value, "browserName").Str? &&
                       Get(rec, "description").Str?) {
      SpecDoneNameFaults(rec, now, caps.value, shot, options, e, denied);
    }
  }

  /** `specDone` stops at the driver when it gives no capabilities: the
      spec keeps its finish stamps and the filesystem is untouched. */
  lemma SpecDoneWithoutDriver(rec: Record, now: int, shot: Option<string>,
                              options: Record, e: Entries, denied: set<Path>)
    ensures SpecDoneEffect(rec, now, None, shot, options, e, denied) ==
            Effect(Finished(rec, now), e, Some(DriverFailure))
  {
  }

  /** `specDone` stops before touching the filesystem when the suite
      description, the browser name or the spec description is not a
      string; the spec keeps its finish stamps and capabilities. */
  lemma SpecDoneNameFaults(rec: Record, now: int, caps: Record, shot: Option<string>,
                           options: Record, e: Entries, denied: set<Path>)
    requires !(Get(rec, "suite").Str? && Get(caps, "browserName").Str? && Get(rec, "description").Str?)
    ensures var eff := SpecDoneEffect(rec, now, Some(caps), shot, options, e, denied);
      eff.fault == Some(NotAString) && eff.entries == e &&
      Get(eff.spec, "utcFinished") == Date(now) && Get(eff.spec, "browserName") == Get(caps, "browserName")
  {
    var withCaps := WithCapabilities(Finished(rec, now), caps);
    assert Get(withCaps, "suite") == Get(rec, "suite");
    if Get(rec, "suite").Str? && Get(caps, "browserName").Str? {
      var directory := Join([Sanitize(Get(rec, "suite").s), Sanitize(Get(caps, "browserName").s)]);
      assert Get(withCaps["suiteDirectory" := Str(directory)], "description") == Get(rec, "description");
    }
  }

  /** A successful `specDone` on a spec the capture policy skips: the
      three names are strings, the spec is the named record marked with
      `skipPrinting`, its directory `e2eReport/<suite>/<browser>` exists,
      the JSON file holds the named record without that mark, and no
      screenshot file is added. */
  lemma SkippedSpecDone(rec: Record, now: int, caps: Option<Record>, shot: Option<string>,
                        options: Record, e: Entries, denied: set<Path>)
    requires WellFormed(e)
    requires SpecDoneEffect(rec, now, caps, shot, options, e, denied).fault.None?
    requires SkipScreenshot(options, rec)
    ensures caps.Some? && Get(rec, "suite").Str? && Get(caps.value, "browserName").Str? &&
            Get(rec, "description").Str?
    ensures var eff := SpecDoneEffect(rec, now, caps, shot, options, e, denied);
      var s := Sanitize(Get(rec, "suite").s);
      var b := Sanitize(Get(caps.value, "browserName").s);
      var n := Sanitize(Get(rec, "description").s);
      var named := Named(rec, now, caps.value, s, b, n);
      var json := [DefaultDestination, s, b, n + ".json"];
      var png := [DefaultDestination, s, b, n + ".png"];
      eff.spec == named["skipPrinting" := Bool(true)] &&
      IsDir(eff.entries, [DefaultDestination, s, b]) &&
      json in eff.entries && eff.entries[json] == File(Json(named)) &&
      (png in eff.entries <==> png in e)
  {
    SpecDoneNeedsNames(rec, now, caps, shot, options, e, denied);
    SpecDoneReachesStore(rec, now, caps, shot, options, e, denied);
    var s := Sanitize(Get(rec, "suite").s);
    var b := Sanitize(Get(caps.value, "browserName").s);
    var n := Sanitize(Get(rec, "description").s);
    var named := Named(rec, now, caps.value, s, b, n);
    assert SkipScreenshot(options, named);
    ArtifactsStored(named, s, b, n, shot, options, e, denied);
    SkippedSpecStoresOnlyJson(named, s, b, n, shot, options, e, denied);
  }

  /** A successful `specDone` on a spec the capture policy does not skip:
      the spec is the named record with `screenFile`, the directory exists,
      the JSON file holds the named record without `screenFile`, and the
      screenshot is written beside it. */
  lemma CapturedSpecDone(rec: Record, now: int, caps: Option<Record>, shot: Option<string>,
                         options: Record, e: Entries, denied: set<Path>)
    requires WellFormed(e)
    requires SpecDoneEffect(rec, now, caps, shot, options, e, denied).fault.None?
    requires !SkipScreenshot(options, rec)
    ensures caps.Some? && shot.Some? && Get(rec, "suite").Str? && Get(caps.value, "browserName").Str? &&
            Get(rec, "description").Str?
    ensures var eff := SpecDoneEffect(rec, now, caps, shot, options, e, denied);
      var s := Sanitize(Get(rec, "suite").s);
      var b := Sanitize(Get(caps.value, "browserName").s);
      var n := Sanitize(Get(rec, "description").s);
      var named := Named(rec, now, caps.value, s, b, n);
      var json := [DefaultDestination, s, b, n + ".json"];
      var png := [DefaultDestination, s, b, n + ".png"];
      eff.spec == named["screenFile" := Str(n + ".png")] &&
      IsDir(eff.entries, [DefaultDestination, s, b]) &&
      json in eff.entries && eff.entries[json] == File(Json(named)) &&
      png in eff.entries && eff.entries[png] == File(Image(shot.value))
  {
    SpecDoneNeedsNames(rec, now, caps, shot, options, e, denied);
    SpecDoneReachesStore(rec, now, caps, shot, options, e, denied);
    var s := Sanitize(Get(rec, "suite").s);
    var b := Sanitize(Get(caps.value, "browserName").s);
    var n := Sanitize(Get(rec, "description").s);
    var named := Named(rec, now, caps.value, s, b, n);
    assert !SkipScreenshot(options, named);
    CapturedSpecStoresScreenshot(named, s, b, n, shot, options, e, denied);
    ArtifactsStored(named, s, b, n, shot, options, e, denied);
  }

  /** With the reporter's configured options, every spec that did not fail
      is skipped: it is marked with `skipPrinting` and no screenshot file
      is added, passing specs included. */
  lemma ConfiguredRunSkipsUnlessFailed(opts: Record, rec: Record, now: int, caps: Option<Record>,
                                       shot: Option<string>, e: Entries, denied: set<Path>)
    requires WellFormed(e)
    requires Get(rec, "status") != Str("failed")
    requires SpecDoneEffect(rec, now, caps, shot, Configure(opts), e, denied).fault.None?
    ensures caps.Some? && Get(rec, "suite").Str? && Get(caps.value, "browserName").Str? &&
            Get(rec, "description").Str?
    ensures var eff := SpecDoneEffect(rec, now, caps, shot, Configure(opts), e, denied);
      var png := [DefaultDestination, Sanitize(Get(rec, "suite").s), Sanitize(Get(caps.value, "browserName").s),
                  Sanitize(Get(rec, "description").s) + ".png"];
      Get(eff.spec, "skipPrinting") == Bool(true) && (png in eff.entries <==> png in e)
  {
    SkipUnlessFailed(opts, rec);
    SpecDoneNeedsNames(rec, now, caps, shot, Configure(opts), e, denied);
    SkippedSpecDone(rec, now, caps, shot, Configure(opts), e, denied);
  }

  /** The reporter object: its configured options, the suite and spec
      registries, the running suite (a position in the suite registry) and
      the filesystem it writes to. */
  class Reporter {
    const fs: FileSystem
    var options: Record
    var runningSuite: Option<nat>
    var allSuites: seq<Record>
    var allSpecs: seq<Record>

    /** The filesystem is well formed, the running suite is a registered
        suite, and neither registry holds two records with one id. */
    ghost predicate Valid()
      reads this, fs
    {
      fs.Valid() &&
      (runningSuite.Some? ==> runningSuite.value < |allSuites|) &&
      DistinctIds(allSuites) && DistinctIds(allSpecs)
    }

    /** `jasmineJSONScreenshotReporter(opts)`: defaults filled into the
        options, empty registries, no running suite. */
    constructor (opts: Record, fs: FileSystem)
      requires fs.Valid()
      ensures Valid()
      ensures this.fs == fs && options == Configure(opts)
      ensures runningSuite == None && allSuites == [] && allSpecs == []
    {
      this.fs := fs;
      options := Configure(opts);
      runningSuite := None;
      allSuites := [];
      allSpecs := [];
    }

    /** `suiteStarted`: upsert the suite, reset its spec list, stamp its
        start and make it the running suite. */
    method SuiteStarted(suite: Record, now: int)
      requires Valid()
      modifies this
      ensures Valid()
      ensures var i := FirstMatch(old(allSuites), suite);
        var u := Upserted(old(allSuites), suite);
        allSuites == u[i := u[i]["specs" := SpecList([])]["utcStarted" := Date(now)]] &&
        runningSuite == Some(i)
      ensures runningSuite.Some? && SameId(allSuites[runningSuite.value], suite)
      ensures Get(allSuites[runningSuite.value], "specs") == SpecList([])
      ensures allSpecs == old(allSpecs) && options == old(options)
    {
      var updated, i := Upsert(allSuites, suite);
      UpsertKeepsIdsDistinct(allSuites, suite);
      var started := updated[i]["specs" := SpecList([])]["utcStarted" := Date(now)];
      ReplaceKeepsIdsDistinct(updated, i, started);
      allSuites := updated[i := started];
      runningSuite := Some(i);
    }

    /** `specStarted`: upsert the spec and stamp its start; then, with a
        running suite, record that suite's description on the spec and push
        the spec onto the suite's list. Without a running suite the handler
        fails after the stamp; with a suite whose `specs` is no list it fails
        after recording the description. */
    method SpecStarted(spec: Record, now: int) returns (fault: Option<Fault>)
      requires Valid()
      modifies this
      ensures Valid()
      ensures var j := FirstMatch(old(allSpecs), spec);
        var u := Upserted(old(allSpecs), spec);
        var stamped := u[j]["utcStarted" := Date(now)];
        match old(runningSuite)
        case None =>
          fault == Some(NoRunningSuite) && allSpecs == u[j := stamped] && allSuites == old(allSuites)
        case Some(k) =>
          var owner := old(allSuites)[k];
          allSpecs == u[j := stamped["suite" := Get(owner, "description")]] &&
          (Get(owner, "specs").SpecList? ==>
            fault.None? &&
            allSuites == old(allSuites)[k := owner["specs" := SpecList(Get(owner, "specs").refs + [j])]]) &&
          (!Get(owner, "specs").SpecList? ==> fault == Some(NotAnArray) && allSuites == old(allSuites))
      ensures runningSuite == old(runningSuite) && options == old(options)
    {
      var updated, j := Upsert(allSpecs, spec);
      UpsertKeepsIdsDistinct(allSpecs, spec);
      var stamped := updated[j]["utcStarted" := Date(now)];
      ReplaceKeepsIdsDistinct(updated, j, stamped);
      if runningSuite.None? {
        allSpecs := updated[j := stamped];
        return Some(NoRunningSuite);
      }
      var k := runningSuite.value;
      var owner := allSuites[k];
      var linked := stamped["suite" := Get(owner, "description")];
      ReplaceKeepsIdsDistinct(updated, j, linked);
      allSpecs := updated[j := linked];
      var specs := Get(owner, "specs");
      if !specs.SpecList? {
        return Some(NotAnArray);
      }
      var grown := owner["specs" := SpecList(specs.refs + [j])];
      ReplaceKeepsIdsDistinct(allSuites, k, grown);
      allSuites := allSuites[k := grown];
      fault := None;
    }

    /** The artifact half of `specDone`: ensure the storage directory, write
        the JSON file, then either mark the spec as skipped or take and
        write the screenshot. Returns the spec record as it then stands. */
    method StoreSpec(named: Record, directory: string, name: string, shot: Option<string>)
        returns (spec: Record, fault: Option<Fault>)
      requires fs.Valid()
      modifies fs
      ensures fs.Valid()
      ensures Effect(spec, fs.entries, fault) ==
              StoreArtifacts(named, directory, name, shot, options, old(fs.entries), fs.denied)
    {
      ghost var e := fs.entries;
      var outcome := EnsureDirectory(fs, Join([DefaultDestination, directory]));
      if outcome.Failed? {
        return named, Some(Io(outcome.code));
      }
      outcome := fs.WriteFile(Join([DefaultDestination, directory, name + ".json"]), Json(named));
      if outcome.Failed? {
        return named, Some(Io(outcome.code));
      }
      if SkipScreenshot(options, named) {
        return named["skipPrinting" := Bool(true)], None;
      }
      if shot.None? {
        return named, Some(DriverFailure);
      }
      spec := named["screenFile" := Str(name + ".png")];
      outcome := fs.WriteFile(Join([DefaultDestination, directory, name + ".png"]), Image(shot.value));
      fault := if outcome.Failed? then Some(Io(outcome.code)) else None;
      assert StoreArtifacts(named, directory, name, shot, options, e, fs.denied).fault == fault;
    }

    /** Puts the spec record a handler has been updating back at its place
        in the upserted spec registry. */
    method Settle(updated: seq<Record>, j: nat, rec: Record)
      requires fs.Valid() && (runningSuite.Some? ==> runningSuite.value < |allSuites|) && DistinctIds(allSuites)
      requires DistinctIds(updated) && j < |updated| && SameId(rec, updated[j])
      modifies this
      ensures Valid()
      ensures allSpecs == updated[j := rec]
      ensures allSuites == old(allSuites) && runningSuite == old(runningSuite) && options == old(options)
    {
      ReplaceKeepsIdsDistinct(updated, j, rec);
      allSpecs := updated[j := rec];
    }

    /** `specDone`: upsert the spec, stamp its finish and duration, record
        the browser's capabilities and the storage names, then store the
        artifacts. Whatever the handler set before a failure stays on the
        registered spec; the suites and the running suite are untouched. */
    method SpecDone(spec: Record, now: int, caps: Option<Record>, shot: Option<string>)
        returns (fault: Option<Fault>)
      requires Valid()
      modifies this, fs
      ensures Valid()
      ensures var j := FirstMatch(old(allSpecs), spec);
        var u := Upserted(old(allSpecs), spec);
        var eff := SpecDoneEffect(u[j], now, caps, shot, options, old(fs.entries), fs.denied);
        allSpecs == u[j := eff.spec] && fs.entries == eff.entries && fault == eff.fault
      ensures allSuites == old(allSuites) && runningSuite == old(runningSuite) && options == old(options)
    {
      var updated, j := Upsert(allSpecs, spec);
      UpsertKeepsIdsDistinct(allSpecs, spec);
      ghost var eff := SpecDoneEffect(updated[j], now, caps, shot, options, fs.entries, fs.denied);
      var rec := Finished(updated[j], now);
      if caps.None? {
        assert eff == Effect(rec, fs.entries, Some(DriverFailure));
        Settle(updated, j, rec);
        return Some(DriverFailure);
      }
      rec := WithCapabilities(rec, caps.value);
      var suiteSeg := SanitizeValue(Get(rec, "suite"));
      var browserSeg := SanitizeValue(Get(rec, "browserName"));
      if suiteSeg.None? || browserSeg.None? {
        assert eff == Effect(rec, fs.entries, Some(NotAString));
        Settle(updated, j, rec);
        return Some(NotAString);
      }
      var directory := Join([suiteSeg.value, browserSeg.value]);
      rec := rec["suiteDirectory" := Str(directory)];
      var nameSeg := SanitizeValue(Get(rec, "description"));
      if nameSeg.None? {
        assert eff == Effect(rec, fs.entries, Some(NotAString));
        Settle(updated, j, rec);
        return Some(NotAString);
      }
      rec := rec["suiteFile" := Str(nameSeg.value + ".json")];
      assert eff == StoreArtifacts(rec, directory, nameSeg.value, shot, options, fs.entries, fs.denied);
      var stored;
      stored, fault := StoreSpec(rec, directory, nameSeg.value, shot);
      Settle(updated, j, stored);
    }

    /** `suiteDone`: upsert the suite, stamp its finish and duration, and
        clear the running suite, whichever suite it was. */
    method SuiteDone(suite: Record, now: int)
      requires Valid()
      modifies this
      ensures Valid()
      ensures var i := FirstMatch(old(allSuites), suite);
        var u := Upserted(old(allSuites), suite);
        allSuites == u[i := Finished(u[i], now)] && runningSuite == None
      ensures allSpecs == old(allSpecs) && options == old(options)
    {
      var updated, i := Upsert(allSuites, suite);
      UpsertKeepsIdsDistinct(allSuites, suite);
      var finished := Finished(updated[i], now);
      ReplaceKeepsIdsDistinct(updated, i, finished);
      allSuites := updated[i := finished];
      runningSuite := None;
    }
  }
}
