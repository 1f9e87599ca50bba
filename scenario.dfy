/**
 * The scenario of `test_smart_update.py`: three mods in the source, two of
 * them already in the target (one at the same version, one at another), and
 * a configuration naming all three. `smart_update_mods` counts one new, one
 * updated and one skipped mod.
 */
module Scenario {
  import opened Common
  import opened Text
  import opened NameNormalizer
  import opened Manifest
  import opened FsModel
  import opened MetadataReader
  import opened UpdateDecision
  import opened ModLocator
  import opened SyncSpec

  /** The test's mod ids `test_mod1` .. `test_mod3`. */
  function ModId(d: char): string {
    "test_mod" + [d]
  }

  /** `create_test_mod_folder` names the folder `{mod_id}_mod`. */
  function DirName(d: char): string {
    ModId(d) + "_mod"
  }

  /**
   * A folder as `create_test_mod_folder` leaves it: `ServerData.json` with
   * id, name and version, and a `test.txt` whose contents play no part here.
   */
  function TestModFolder(d: char, version: string, mtime: int): Folder {
    Folder(mtime, Parsed(ServerData(Some(ModId(d)), Some(ModId(d) + "模组"), RevisionObject(Some(version)))),
           map["test.txt" := []])
  }

  /** The source folders are created before the target folders. */
  const SourceTime := 1
  const TargetTime := 2
  const Now := 3

  const Source: Listing := [
    Entry(DirName('1'), Dir(TestModFolder('1', "1.0", SourceTime))),
    Entry(DirName('2'), Dir(TestModFolder('2', "2.0", SourceTime))),
    Entry(DirName('3'), Dir(TestModFolder('3', "1.5", SourceTime)))]

  const Target: Listing := [
    Entry(DirName('1'), Dir(TestModFolder('1', "1.0", TargetTime))),
    Entry(DirName('2'), Dir(TestModFolder('2', "1.5", TargetTime)))]

  const Config: ConfigDoc :=
    ConfigObject(Some(GameSection(Some([ModEntry(Some(ModId('1'))), ModEntry(Some(ModId('2'))), ModEntry(Some(ModId('3')))]))))

  const NoFaults := Faults({}, {}, false)

  /** The target after `mods_update` has been created in it. */
  const ResetTarget: Listing := Target + [Entry(UpdateFolderName, Dir(EmptyFolder(Now)))]

  predicate IsDigit(d: char) {
    '0' <= d <= '9'
  }

  /** A folder name holds its own id and no other. */
  lemma DirNameHoldsOnlyItsId(d: char, e: char)
    requires IsDigit(d) && IsDigit(e)
    ensures Contains(DirName(d), ModId(e)) <==> d == e
  {
    var s, sub := DirName(d), ModId(e);
    assert !OccursFrom(s, sub, 5);
    assert s[4..13][0] != sub[0];
    assert !OccursFrom(s, sub, 4);
    assert s[3..12][1] != sub[1];
    assert !OccursFrom(s, sub, 3);
    assert s[2..11][0] != sub[0];
    assert !OccursFrom(s, sub, 2);
    assert s[1..10][0] != sub[0];
    assert !OccursFrom(s, sub, 1);
    if d == e {
      assert s[0..9] == sub;
    } else {
      assert s[0..9][8] != sub[8];
    }
  }

  lemma UpdateFolderHoldsNoId(e: char)
    ensures !Contains(UpdateFolderName, ModId(e))
  {
    var s, sub := UpdateFolderName, ModId(e);
    assert !OccursFrom(s, sub, 3);
    assert s[2..11][0] != sub[0];
    assert !OccursFrom(s, sub, 2);
    assert s[1..10][0] != sub[0];
    assert !OccursFrom(s, sub, 1);
    assert s[0..9][0] != sub[0];
  }

  /**
   * The test's folder names are already clean, so the standardised name
   * starts with the folder name itself and is longer than any of them.
   */
  lemma StandardNameShape(d: char, version: string)
    requires IsDigit(d)
    ensures |GenerateModFolderName(DirName(d), version)| > 13
    ensures GenerateModFolderName(DirName(d), version)[8] == d
  {
    assert IsCleanName(DirName(d));
    SanitizeFixedPointIffClean(DirName(d));
    var r := GenerateModFolderName(DirName(d), version);
    assert r[..13] == DirName(d);
    assert r[8] == r[..13][8];
  }

  /** No entry of the reset target bears a name longer than 13 characters. */
  lemma ResetTargetNamesAreShort(name: string)
    requires |name| > 13
    ensures Lookup(ResetTarget, name).None?
  {
  }

  lemma ResetTargetIs()
    ensures ResetUpdateFolder(Target, Now) == Some(ResetTarget)
  {
    assert !Exists(Target, UpdateFolderName) by {
      IndexOfIs(Target, UpdateFolderName, 2);
    }
  }

  /** The mod `ModId(d)` is the `k`-th source folder, with the metadata the test wrote. */
  lemma FoundInSource(d: char, k: nat, version: string)
    requires k < 3 && d == "123"[k] && version == ["1.0", "2.0", "1.5"][k]
    ensures Found(Source, ModId(d)) && SourceFolder(Source, ModId(d)) == TestModFolder(d, version, SourceTime)
    ensures ParseModInfo(SourceFolder(Source, ModId(d)), ModId(d)) == ModInfo(ModId(d) + "模组", version)
    ensures StandardName(Source, ModId(d)) == GenerateModFolderName(DirName(d), version)
  {
    forall j | 0 <= j < k
      ensures !IsModDir(Source[j], ModId(d))
    {
      DirNameHoldsOnlyItsId("123"[j], d);
    }
    DirNameHoldsOnlyItsId(d, d);
    FirstModDirUnique(Source, ModId(d), k);
  }

  /** The first two mods resolve to their own folders in the target. */
  lemma ResolvesToTestFolder(d: char, k: nat, std: string)
    requires k < 2 && d == "12"[k]
    ensures ResolveTargetModPath(ResetTarget, ModId(d), std) == DirName(d)
    ensures Lookup(ResetTarget, DirName(d)) == Some(ResetTarget[k].node)
  {
    forall j | 0 <= j < k
      ensures !IsModDir(ResetTarget[j], ModId(d))
    {
      DirNameHoldsOnlyItsId("12"[j], d);
    }
    DirNameHoldsOnlyItsId(d, d);
    FirstModDirUnique(ResetTarget, ModId(d), k);
    IndexOfIs(ResetTarget, DirName(d), k);
  }

  /** `test_mod1`: same version in the target, so it is skipped. */
  lemma FirstModSkipped(bundle: Listing, renameFails: bool)
    ensures ModStep(Bundle, Source, ResetTarget, bundle, ModId('1'), renameFails, false)
         == StepResult(ResetTarget, bundle, Skipped, TestModInfo('1', "1.0"))
  {
    var std := GenerateModFolderName(DirName('1'), "1.0");
    FoundInSource('1', 0, "1.0");
    ResolvesToTestFolder('1', 0, std);
    BundleSkipsSameVersion(ResetTarget, bundle, ModId('1'), std, TestModFolder('1', "1.0", SourceTime), false);
    BundleOutcome(ResetTarget, bundle, ModId('1'), std, TestModFolder('1', "1.0", SourceTime), false);
    BundleStepOfFound(Source, ResetTarget, bundle, ModId('1'), renameFails, false);
  }

  /** What the bundle holds after `test_mod2` is copied into it. */
  function BundleAfterSecond(): Listing {
    [CopiedEntry('2', "2.0")]
  }

  /** The folder of mod `d` copied into the bundle under its standardised name. */
  function CopiedEntry(d: char, version: string): Entry {
    Entry(GenerateModFolderName(DirName(d), version), Dir(TestModFolder(d, version, SourceTime)))
  }

  /** Copying into an empty directory creates the folder as the only entry. */
  lemma CopyIntoEmpty(name: string, src: Folder)
    ensures CopyTree([], name, src) == Some([Entry(name, Dir(src))])
  {
    IndexOfIs([], name, 0);
    assert [] + [Entry(name, Dir(src))] == [Entry(name, Dir(src))];
  }

  /** Copying a new folder into a directory holding one other entry appends it. */
  lemma CopyBesideOne(e: Entry, name: string, src: Folder)
    requires e.name != name
    ensures CopyTree([e], name, src) == Some([e, Entry(name, Dir(src))])
  {
    IndexOfIs([e], name, 1);
    assert [e] + [Entry(name, Dir(src))] == [e, Entry(name, Dir(src))];
  }

  /** In the bundle step for `test_mod2` the target folder holds version 1.5, so 2.0 is copied as updated. */
  lemma SecondModCopied()
    ensures BundleFound(ResetTarget, [], ModId('2'), GenerateModFolderName(DirName('2'), "2.0"),
                        TestModFolder('2', "2.0", SourceTime), false)
         == FoundStep(BundleAfterSecond(), Updated)
  {
    var std := GenerateModFolderName(DirName('2'), "2.0");
    var src, tgt := TestModFolder('2', "2.0", SourceTime), TestModFolder('2', "1.5", TargetTime);
    ResolvesToTestFolder('2', 1, std);
    UpdateNeededUntilCopied(src, tgt);
    CopyIntoEmpty(std, src);
  }

  /** `test_mod2`: version 2.0 over 1.5, so it is copied into the empty bundle as updated. */
  lemma SecondModUpdated(renameFails: bool)
    ensures ModStep(Bundle, Source, ResetTarget, [], ModId('2'), renameFails, false)
         == StepResult(ResetTarget, BundleAfterSecond(), Updated, TestModInfo('2', "2.0"))
  {
    FoundInSource('2', 1, "2.0");
    SecondModCopied();
    BundleStepOfFound(Source, ResetTarget, [], ModId('2'), renameFails, false);
  }

  /** The two standardised names differ: each starts with its own folder name. */
  lemma StandardNamesDiffer()
    ensures GenerateModFolderName(DirName('2'), "2.0") != GenerateModFolderName(DirName('3'), "1.5")
  {
    StandardNameShape('2', "2.0");
    StandardNameShape('3', "1.5");
  }

  /** What the bundle holds after `test_mod3` is copied into it. */
  function BundleAfterThird(): Listing {
    [CopiedEntry('2', "2.0"), CopiedEntry('3', "1.5")]
  }

  /** A mod with no folder in the target resolves to its standardised name. */
  lemma AbsentResolvesToStandard(e: char, std: string)
    requires IsDigit(e) && e != '1' && e != '2'
    ensures ResolveTargetModPath(ResetTarget, ModId(e), std) == std
  {
    DirNameHoldsOnlyItsId('1', e);
    DirNameHoldsOnlyItsId('2', e);
    UpdateFolderHoldsNoId(e);
    assert !IsModDir(ResetTarget[0], ModId(e)) && !IsModDir(ResetTarget[1], ModId(e)) && !IsModDir(ResetTarget[2], ModId(e));
    FirstModDirUnique(ResetTarget, ModId(e), 3);
  }

  lemma ThirdStandardIsFree()
    ensures !Exists(ResetTarget, GenerateModFolderName(DirName('3'), "1.5"))
  {
    StandardNameShape('3', "1.5");
    ResetTargetNamesAreShort(GenerateModFolderName(DirName('3'), "1.5"));
  }

  lemma ThirdCopyAppends()
    ensures CopyTree(BundleAfterSecond(), GenerateModFolderName(DirName('3'), "1.5"), TestModFolder('3', "1.5", SourceTime))
         == Some(BundleAfterThird())
  {
    StandardNamesDiffer();
    CopyBesideOne(CopiedEntry('2', "2.0"), GenerateModFolderName(DirName('3'), "1.5"), TestModFolder('3', "1.5", SourceTime));
  }

  /** In the bundle step for `test_mod3` nothing resolves in the target, so the folder is copied as new. */
  lemma ThirdModCopied()
    ensures BundleFound(ResetTarget, BundleAfterSecond(), ModId('3'), GenerateModFolderName(DirName('3'), "1.5"),
                        TestModFolder('3', "1.5", SourceTime), false)
         == FoundStep(BundleAfterThird(), Added)
  {
    AbsentResolvesToStandard('3', GenerateModFolderName(DirName('3'), "1.5"));
    ThirdStandardIsFree();
    ThirdCopyAppends();
  }

  /** `test_mod3`: absent from the target, so it is copied into the bundle as new. */
  lemma ThirdModAdded(renameFails: bool)
    ensures ModStep(Bundle, Source, ResetTarget, BundleAfterSecond(), ModId('3'), renameFails, false)
         == StepResult(ResetTarget, BundleAfterThird(), Added, TestModInfo('3', "1.5"))
  {
    FoundInSource('3', 2, "1.5");
    ThirdModCopied();
    BundleStepOfFound(Source, ResetTarget, BundleAfterSecond(), ModId('3'), renameFails, false);
  }

  /**
   * Lines 105-111 of `test_smart_update.py`: three mods in total, one new
   * (`test_mod3`), one updated (`test_mod2`), one skipped (`test_mod1`);
   * `mods_update` holds the two copied folders under their standardised
   * names and the manifest naming all three mods.
   */
  lemma SmartUpdateScenario()
    ensures BundleSync(Config, Source, Target, NoFaults, Now).Success?
    ensures var r := BundleSync(Config, Source, Target, NoFaults, Now).value;
      && r.summary.totalMods == 3 && r.summary.newMods == 1 && r.summary.updatedMods == 1 && r.summary.skippedMods == 1
      && KeySet(r.summary.modInfo) == {ModId('1'), ModId('2'), ModId('3')}
      && r.target == ResetTarget
      && r.bundle == BundleAfterThird() + [Entry(ModInfoFileName, File(ModInfoFile(r.summary.modInfo)))]
  {
    ScenarioSyncIs();
    ScenarioManifest(AfterThird.modInfo);
    ScenarioCounts();
    ScenarioKeys();
  }

  /** The configuration lists the three test mods in order. */
  lemma ConfigIdsAre()
    ensures ConfigModIds(Config) == Success(ConfigIds)
  {
    var found := ConfigModIds(Config);
    assert |found.value| == 3 && found.value[0] == ConfigIds[0] && found.value[1] == ConfigIds[1] && found.value[2] == ConfigIds[2];
    assert found.value == ConfigIds;
  }

  /** The driver resets `mods_update`, runs the three steps and saves the manifest. */
  lemma ScenarioSyncIs()
    ensures BundleSync(Config, Source, Target, NoFaults, Now)
         == Success(BundleResult(ResetTarget, SaveManifest(BundleAfterThird(), AfterThird.modInfo, false),
              BundleSummary(3, AfterThird.newMods, AfterThird.updatedMods, AfterThird.skippedMods, UpdateFolderName, AfterThird.modInfo)))
  {
    ConfigIdsAre();
    ResetTargetIs();
    RunThird();
  }

  /** The manifest is appended to the bundle after the two copied folders. */
  lemma ScenarioManifest(info: ModInfoMap)
    ensures SaveManifest(BundleAfterThird(), info, false) == BundleAfterThird() + [Entry(ModInfoFileName, File(ModInfoFile(info)))]
  {
    ManifestIsNew();
  }

  const ConfigIds := [ModId('1'), ModId('2'), ModId('3')]

  /** `mod_info` entries the test's mods produce. */
  function TestModInfo(d: char, version: string): Option<ModInfo> {
    Some(ModInfo(ModId(d) + "模组", version))
  }

  const ScenarioStep := StepOf(Bundle, Source)
  const ScenarioStart := SyncState(ResetTarget, [], NoneCounted)

  const AfterFirst := Record(NoneCounted, Skipped, ModId('1'), TestModInfo('1', "1.0"))
  const AfterSecond := Record(AfterFirst, Updated, ModId('2'), TestModInfo('2', "2.0"))
  const AfterThird := Record(AfterSecond, Added, ModId('3'), TestModInfo('3', "1.5"))

  lemma RunFirst()
    ensures Run(ScenarioStep, ScenarioStart, ConfigIds, NoFaults, 1) == SyncState(ResetTarget, [], AfterFirst)
  {
    FirstModSkipped([], false);
    RunNext(ScenarioStep, ScenarioStart, ConfigIds, NoFaults, 0, StepResult(ResetTarget, [], Skipped, TestModInfo('1', "1.0")));
  }

  lemma RunSecond()
    ensures Run(ScenarioStep, ScenarioStart, ConfigIds, NoFaults, 2) == SyncState(ResetTarget, BundleAfterSecond(), AfterSecond)
  {
    RunFirst();
    SecondModUpdated(false);
    RunNext(ScenarioStep, ScenarioStart, ConfigIds, NoFaults, 1,
            StepResult(ResetTarget, BundleAfterSecond(), Updated, TestModInfo('2', "2.0")));
  }

  lemma RunThird()
    ensures Run(ScenarioStep, ScenarioStart, ConfigIds, NoFaults, 3) == SyncState(ResetTarget, BundleAfterThird(), AfterThird)
  {
    RunSecond();
    ThirdModAdded(false);
    RunNext(ScenarioStep, ScenarioStart, ConfigIds, NoFaults, 2,
            StepResult(ResetTarget, BundleAfterThird(), Added, TestModInfo('3', "1.5")));
  }

  /** The loop over the three configured mods: one skipped, one updated, one new, all three recorded. */
  lemma ScenarioRun()
    ensures var s := Run(ScenarioStep, ScenarioStart, ConfigIds, NoFaults, 3);
      && s.target == ResetTarget && s.bundle == BundleAfterThird()
      && s.tally.newMods == 1 && s.tally.updatedMods == 1 && s.tally.skippedMods == 1
      && KeySet(s.tally.modInfo) == {ModId('1'), ModId('2'), ModId('3')}
  {
    RunThird();
    ScenarioKeys();
    ScenarioCounts();
  }

  lemma ScenarioCounts()
    ensures AfterThird.newMods == 1 && AfterThird.updatedMods == 1 && AfterThird.skippedMods == 1
  {
  }

  lemma ScenarioKeys()
    ensures KeySet(AfterThird.modInfo) == {ModId('1'), ModId('2'), ModId('3')}
  {
    var empty: ModInfoMap := [];
    assert KeySet(empty) == {};
    assert AfterFirst.modInfo == Put(empty, ModId('1'), TestModInfo('1', "1.0").value);
    assert AfterSecond.modInfo == Put(AfterFirst.modInfo, ModId('2'), TestModInfo('2', "2.0").value);
    assert AfterThird.modInfo == Put(AfterSecond.modInfo, ModId('3'), TestModInfo('3', "1.5").value);
  }

  /** `mod_info.json` is a new file in the bundle: both folder names are longer than it. */
  lemma ManifestIsNew()
    ensures !Exists(BundleAfterThird(), ModInfoFileName)
  {
    StandardNameShape('2', "2.0");
    StandardNameShape('3', "1.5");
    ShortNameNotInPair(CopiedEntry('2', "2.0"), CopiedEntry('3', "1.5"), ModInfoFileName);
  }

  lemma ShortNameNotInPair(a: Entry, b: Entry, name: string)
    requires |a.name| > |name| && |b.name| > |name|
    ensures !Exists([a, b], name)
  {
    IndexOfIs([a, b], name, 2);
  }


}
