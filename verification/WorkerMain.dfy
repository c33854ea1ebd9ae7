/**
 The worker's routing (worker/main.py), and what an ALLOW on a ZIP means end to end. The
 PDF, Office and YARA analyzers appear here through their findings and completeness only.
 */
module WorkerMain {
  import opened Wrappers
  import opened Reachability
  import opened PolicyEngine
  import opened PolicyProperties
  import opened ShippedPolicy
  import opened ShippedDecisions
  import opened ArchiveModel
  import opened ArchiveCauses
  import opened ArchiveReport
  import Ordering
  import Orchestrator
  import NameSecurity

  datatype FileFamily = Pdf | Zip | OoxmlCandidate | OleCompound | WindowsExecutable | Text | Unknown
  {
    function Name(): string {
      match this
      case Pdf => "PDF" case Zip => "ZIP" case OoxmlCandidate => "OOXML_CANDIDATE"
      case OleCompound => "OLE_COMPOUND" case WindowsExecutable => "WINDOWS_EXECUTABLE"
      case Text => "TEXT" case Unknown => "UNKNOWN"
    }
  }

  /** What one of the other analyzers reports. */
  datatype Report = Report(findings: seq<Code>, complete: bool)
  datatype OfficeReport = OfficeReport(findings: seq<Code>, complete: bool, detectedType: string)

  ghost predicate Known(findings: seq<Code>) { forall code :: code in findings ==> IsFinding(code) }

  /** The archive analysis that ran, if the routing chose one. */
  datatype ArchiveRun = NoRun | Ran(status: ParserStatus, findings: seq<Code>, inspected: set<Bytes>)

  predicate RoutedToArchive(family: Option<FileFamily>, office: Option<OfficeReport>) {
    (family == Some(Zip) || family == Some(OoxmlCandidate)) && office == None
  }

  /** The type a result names: the Office analyzer's for an Office container, ZIP for an archive. */
  function DetectedType(family: Option<FileFamily>, office: Option<OfficeReport>): Option<string> {
    if family.None? then None
    else if RoutedToArchive(family, office) then Some("ZIP")
    else if family.value in {Zip, OoxmlCandidate, OleCompound} && office.Some? then Some(office.value.detectedType)
    else Some(family.value.Name())
  }

  /** `family` is `None` when content identification fails; `office` when the file is no Office container. */
  method AnalyzeSample(
    rt: Runtime, source: Option<Bytes>, limits: Limits, family: Option<FileFamily>,
    nameFindings: seq<Code>, pdf: Report, office: Option<OfficeReport>, yara: Report)
    returns (result: AnalysisResult<Code>, ghost run: ArchiveRun)
    requires CollisionFree(rt)
    requires Known(nameFindings) && Known(pdf.findings) && Known(yara.findings)
    requires office.Some? ==> Known(office.value.findings)
    ensures Known(result.findings)
    ensures run.Ran? <==> RoutedToArchive(family, office)
    ensures run.Ran? ==>
      && ReportMeaning(rt, source, run.status, run.findings, run.inspected)
      && (forall code :: code in run.findings ==> code in result.findings)
      && result.detectedType == Some("ZIP")
    ensures run.Ran? && source.Some? ==> LimitMeaning(rt, limits, source.value, run.status, run.findings)
    ensures family.Some? ==>
      && (forall code :: code in nameFindings + yara.findings ==> code in result.findings)
      && (family == Some(Pdf) ==> forall code :: code in pdf.findings ==> code in result.findings)
      && (family.value in {Zip, OoxmlCandidate, OleCompound} && office.Some? ==>
            (forall code :: code in office.value.findings ==> code in result.findings)
            && result.detectedType == Some(office.value.detectedType))
    ensures result.detectedType == DetectedType(family, office)
    ensures result.status == SUCCESS <==>
      && family.Some? && family != Some(Unknown) && yara.complete
      && (family == Some(Pdf) ==> pdf.complete)
      && (run.Ran? ==> run.status == COMPLETE)
      && (family.value in {Zip, OoxmlCandidate, OleCompound} && office.Some? ==> office.value.complete)
  {
    run := NoRun;
    if family.None? {
      return AnalysisResult(AnalysisStatus.FAILED, None, []), NoRun;
    }
    var kind := family.value;
    var findings := nameFindings;
    var detectedType := kind.Name();
    var pdfComplete, officeComplete, archiveComplete := true, true, true;
    if kind == Pdf {
      findings, pdfComplete := findings + pdf.findings, pdf.complete;
    }
    if kind in {Zip, OoxmlCandidate, OleCompound} {
      if office.Some? {
        findings := findings + office.value.findings;
        officeComplete, detectedType := office.value.complete, office.value.detectedType;
      } else if kind in {Zip, OoxmlCandidate} {
        var status, archiveFindings, usage;
        ghost var inspected;
        status, archiveFindings, usage, inspected := AnalyzeArchive(rt, source, limits);
        run := Ran(status, archiveFindings, inspected);
        findings, archiveComplete, detectedType := findings + archiveFindings, status == COMPLETE, "ZIP";
      }
    }
    findings := findings + yara.findings;
    var status := if kind != Unknown then SUCCESS else UNSUPPORTED;
    if kind == Pdf && !pdfComplete {
      status := AnalysisStatus.FAILED;
    }
    if !officeComplete {
      status := AnalysisStatus.FAILED;
    }
    if !archiveComplete {
      status := AnalysisStatus.FAILED;
    }
    if !yara.complete {
      status := AnalysisStatus.FAILED;
    }
    result := AnalysisResult(status, Some(detectedType), findings);
  }

  // ---------------------------------------------------------------- end to end

  /** No archive reachable from the root has a member the policy would not release. */
  ghost predicate CleanThroughout(rt: Runtime, root: Bytes) {
    forall a :: Reachable(Contains(rt), {root}, a) ==>
      && FullyReadable(rt, a)
      && forall c :: c in CATEGORIES ==> !ArchiveHas(rt, a, c)
  }

  /** Some reachable archive has a member with an unsafe path, or a symlink. */
  ghost predicate UnsafePaths(rt: Runtime, root: Bytes) {
    Observable(rt, root, Traversal) || Observable(rt, root, AbsolutePath) || Observable(rt, root, Symlink)
  }

  /** Analyze a sample and decide on it, while its scan is in the lifecycle state `state`. */
  method Decide(
    rt: Runtime, source: Option<Bytes>, limits: Limits, family: Option<FileFamily>,
    nameFindings: seq<Code>, pdf: Report, office: Option<OfficeReport>, yara: Report, state: ScanState)
    returns (result: AnalysisResult<Code>, evaluation: Evaluation<Code>)
    requires CollisionFree(rt)
    requires Known(nameFindings) && Known(pdf.findings) && Known(yara.findings)
    requires office.Some? ==> Known(office.value.findings)
    ensures ValidEvaluation(SHIPPED, evaluation)
    ensures evaluation.decision == ALLOW && RoutedToArchive(family, office) ==>
              source.Some? && CleanThroughout(rt, source.value)
    ensures evaluation.decision == ALLOW ==>
              result.status == SUCCESS && yara.complete && (family == Some(Pdf) ==> pdf.complete)
    ensures evaluation.decision == ALLOW ==>
              && (forall code :: code in result.findings ==> Harmless(code)) && NoYara(result.findings)
              && (forall code :: code in nameFindings + yara.findings ==> code in result.findings)
              && (family == Some(Pdf) ==> forall code :: code in pdf.findings ==> code in result.findings)
    ensures evaluation.decision == ALLOW ==> Releasable(family, office)
    ensures evaluation.decision == BLOCK <==> exists c :: c in result.findings && Blocking(c)
    ensures RoutedToArchive(family, office) && source.Some? && UnsafePaths(rt, source.value)
            && WithinLimits(rt, limits, source.value) && AllReadable(rt, source.value) ==>
              evaluation.decision == BLOCK
  {
    ghost var run;
    result, run := AnalyzeSample(rt, source, limits, family, nameFindings, pdf, office, yara);
    var failure := Orchestrator.FailureOf(result.status);
    ShippedTotal(Some(result), failure, state);
    evaluation := Evaluate(SHIPPED, Some(result), failure, state).value;
    BlocksExactly(result, failure, state);
    if run.Ran? && source.Some? && run.status == COMPLETE && UnsafePaths(rt, source.value) {
      UnsafeIsBlocking(rt, source.value, run.findings, run.inspected);
    }
    if evaluation.decision == ALLOW {
      AllowedResult(result, failure, state);
      SupportedFamily(family, office);
      if run.Ran? {
        AllowedArchiveIsClean(rt, source.value, run.findings, run.inspected);
      }
    }
  }

  lemma UnsafeIsBlocking(rt: Runtime, root: Bytes, findings: seq<Code>, inspected: set<Bytes>)
    requires CompleteMeaning(rt, root, findings, inspected) && UnsafePaths(rt, root)
    ensures exists code :: code in findings && Blocking(code)
  {
    assert ObservationCode(Traversal) == Some(ARCHIVE_PATH_TRAVERSAL);
    assert ObservationCode(AbsolutePath) == Some(ARCHIVE_ABSOLUTE_PATH);
    assert ObservationCode(Symlink) == Some(ARCHIVE_SYMLINK);
  }

  predicate NoYara(findings: seq<Code>) {
    YARA_TEST_SIGNATURE !in findings && YARA_SIGNATURE_MATCH !in findings
    && YARA_HEURISTIC_MATCH !in findings && YARA_PARTIAL_ANALYSIS !in findings
  }

  /** No executable, no unidentified file, and no old Office container that is not one. */
  predicate Releasable(family: Option<FileFamily>, office: Option<OfficeReport>) {
    match family
    case Some(Pdf) => true
    case Some(Text) => true
    case Some(Zip) => office.Some? ==> office.value.detectedType in SUPPORTED_RELEASE_TYPES
    case Some(OoxmlCandidate) => office.Some? ==> office.value.detectedType in SUPPORTED_RELEASE_TYPES
    case Some(OleCompound) => office.Some? && office.value.detectedType in SUPPORTED_RELEASE_TYPES
    case _ => false
  }

  lemma AllowedResult(result: AnalysisResult<Code>, failure: Option<FailureCode>, state: ScanState)
    requires var e := Evaluate(SHIPPED, Some(result), failure, state); e.Some? && e.value.decision == ALLOW
    ensures result.status == SUCCESS
    ensures result.detectedType.Some? && result.detectedType.value in SUPPORTED_RELEASE_TYPES
    ensures forall c :: c in result.findings ==> Harmless(c) && Policy(c).minimum == None && Policy(c).contribution < 20
    ensures NoYara(result.findings)
  {
    ShippedAllow(Some(result), failure, state);
    AllowsHarmlessOnly(Some(result), failure, state);
    HarmlessNoYara(result.findings);
  }

  lemma HarmlessNoYara(findings: seq<Code>)
    requires forall c :: c in findings ==> Harmless(c)
    ensures NoYara(findings)
  {
  }

  lemma SupportedFamily(family: Option<FileFamily>, office: Option<OfficeReport>)
    ensures DetectedType(family, office).Some? && DetectedType(family, office).value in SUPPORTED_RELEASE_TYPES ==>
              Releasable(family, office)
  {
    UnsupportedNames();
  }

  lemma UnsupportedNames()
    ensures WindowsExecutable.Name() !in SUPPORTED_RELEASE_TYPES && Unknown.Name() !in SUPPORTED_RELEASE_TYPES
    ensures OleCompound.Name() !in SUPPORTED_RELEASE_TYPES
  {
    assert "WINDOWS_EXECUTABLE"[0] == 'W' && "UNKNOWN"[0] == 'U' && |"OLE_COMPOUND"| == 12;
  }

  lemma AllowedArchiveIsClean(rt: Runtime, root: Bytes, findings: seq<Code>, inspected: set<Bytes>)
    requires CompleteMeaning(rt, root, findings, inspected)
    requires forall c :: c in findings ==> Policy(c).minimum == None && Policy(c).contribution < 20
    ensures CleanThroughout(rt, root)
  {
    forall a, c | Reachable(Contains(rt), {root}, a) && c in CATEGORIES
      ensures !ArchiveHas(rt, a, c)
    {
      if c == Encrypted || c == Nesting {
        ReadableNotEncrypted(rt, a);
      } else {
        ForbiddenCode(c);
        assert ObservationCode(c).value !in findings;
        assert !Observable(rt, root, c);
      }
    }
  }

  lemma ReadableNotEncrypted(rt: Runtime, a: Bytes)
    requires FullyReadable(rt, a)
    ensures !ArchiveHas(rt, a, Encrypted) && !ArchiveHas(rt, a, Nesting)
  {
    var infos := rt.Open(a).infos;
    forall i | 0 <= i < |infos| ensures !EntryHas(rt, infos, i, Encrypted) {
      assert infos[i] in infos;
    }
  }

  lemma ForbiddenCode(c: Category)
    requires c != Encrypted && c != Nesting
    ensures ObservationCode(c).Some?
    ensures var p := Policy(ObservationCode(c).value); p.minimum != None || p.contribution >= 20
  {
  }

  /**
   Cutting the findings list never releases anything: whenever a report was cut, or the
   analysis was partial for any other reason, the decision is QUARANTINE or BLOCK.
   */
  lemma PartialNeverReleased(
    result: AnalysisResult<Code>, failure: Option<FailureCode>, state: ScanState)
    requires Known(result.findings) && ARCHIVE_PARTIAL_ANALYSIS in result.findings
    ensures Evaluate(SHIPPED, Some(result), failure, state).Some?
    ensures var e := Evaluate(SHIPPED, Some(result), failure, state).value;
            e.decision == QUARANTINE || e.decision == BLOCK
  {
    ShippedTotal(Some(result), failure, state);
    if Evaluate(SHIPPED, Some(result), failure, state).value.decision.Rank() < QUARANTINE.Rank() {
      PartialQuarantines(Some(result), failure, state);
    }
  }

  lemma PartialQuarantines(result: Option<AnalysisResult<Code>>, failure: Option<FailureCode>, state: ScanState)
    requires result.Some? && ARCHIVE_PARTIAL_ANALYSIS in result.value.findings
    requires ValidRegistry(SHIPPED) && Registered(SHIPPED, FindingCodes(SHIPPED, result))
    ensures QUARANTINE.Rank() <= Assess(SHIPPED, result, failure, state).decision.Rank()
  {
    ShippedOrdered();
    Ordering.SortUniqueCorrect(Before, result.value.findings);
    PartialMinimum();
    assert ARCHIVE_PARTIAL_ANALYSIS in FindingCodes(SHIPPED, result);
    ShippedMinimumsHonoured(result, failure, state, QUARANTINE);
  }

  lemma PartialMinimum()
    ensures ARCHIVE_PARTIAL_ANALYSIS in SHIPPED.findings
    ensures SHIPPED.findings[ARCHIVE_PARTIAL_ANALYSIS].minimum == Some(QUARANTINE)
  {
    assert SHIPPED.findings[ARCHIVE_PARTIAL_ANALYSIS] == Policy(ARCHIVE_PARTIAL_ANALYSIS);
  }

  lemma CleanFacts(rt: Runtime, root: Bytes, a: Bytes, i: nat, j: nat)
    requires CleanThroughout(rt, root) && Reachable(Contains(rt), {root}, a)
    requires rt.Open(a).Listing? && i <= j < |rt.Open(a).infos|
    ensures
      var e, f := rt.Facts(rt.Open(a).infos[i].filename), rt.Facts(rt.Open(a).infos[j].filename);
      && !e.traversal && !e.rooted && !e.dangerous && !e.doubleExtension && !e.bidi
      && (i < j ==> e.collisionKey != f.collisionKey)
    ensures !IsOpaqueMember(rt, rt.Open(a).infos[i])
    ensures !rt.Open(a).infos[i].isDir ==> !IsSymlink(rt.Open(a).infos[i])
  {
    var infos := rt.Open(a).infos;
    var facts := FactsOf(rt, infos);
    assert infos[i] in infos;
    forall c | c in CATEGORIES ensures !EntryHas(rt, infos, i, c) && !EntryHas(rt, infos, j, c) {
      assert !ArchiveHas(rt, a, c);
    }
    assert !NameHas(facts, i, Traversal) && !NameHas(facts, i, AbsolutePath) && !NameHas(facts, i, Dangerous)
        && !NameHas(facts, i, DoubleExtension) && !NameHas(facts, i, Bidi);
    assert !Collides(facts, j);
  }

  /** A clean archive, spelled out for the analyzer's own name predicates. */
  lemma CleanNames(
    rt: Runtime, nfc: string -> string, casefold: string -> string, root: Bytes, a: Bytes, i: nat, j: nat)
    requires forall name :: rt.Facts(name) == NameFactsOf(nfc, casefold, name)
    requires CleanThroughout(rt, root) && Reachable(Contains(rt), {root}, a)
    requires rt.Open(a).Listing? && i <= j < |rt.Open(a).infos|
    ensures
      var e, f := rt.Open(a).infos[i], rt.Open(a).infos[j];
      && !NameSecurity.IsTraversal(e.filename) && !NameSecurity.IsRooted(e.filename)
      && !NameSecurity.HasDangerousExtension(casefold, e.filename)
      && !NameSecurity.HasDangerousDoubleExtension(casefold, e.filename)
      && !NameSecurity.HasBidiControl(e.filename)
      && (i < j ==> NameSecurity.CollisionKey(nfc, e.filename) != NameSecurity.CollisionKey(nfc, f.filename))
      && (e.isDir || !(IsSymlink(e) || IsEncrypted(e) || e.compressType !in rt.methods || e.fault.Some?))
  {
    CleanFacts(rt, root, a, i, j);
  }
}
