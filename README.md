# Mod manager sync, modelled in Dafny

This project models `ModManager`, the core of a tool that keeps a game's mod folders in step with a JSON configuration. The configuration lists mod ids. The tool finds each id's folder in a source directory and works out a standardised folder name for it, of the form `{source folder}_{version}`. It then decides from `ServerData.json` and modification times whether the copy in the target directory is current, and copies the folder when it is not. There are two drivers:

- `process_mods_from_json` syncs into the target directory in place. Before copying, it may rename a folder to the standardised name. The folder it renames is the first directory in the target whose name contains the mod id, and it renames it only when that standardised name is still free. The id match is a plain substring test, so the renamed folder can belong to another mod: id `AB` matches `ABC_x_1.0`.
- `smart_update_mods` leaves the target untouched. It collects the new mods and the mods whose version differs in a fresh `mods_update` folder inside the target, and writes `mod_info.json` there.

Both drivers return counts of new, updated and skipped mods, and the parsed name and version of each mod that was found.

The files and what each models:

- `common.dfy` defines `Option` and `Result`.
- `text.dfy` models Python's whitespace set and the `in` substring test.
- `name_normalizer.dfy` models `sanitize_folder_name` and `generate_mod_folder_name`.
- `manifest.dfy` models the `mod_info` dictionary, which is an insertion-ordered map.
- `fs_model.dfy` models a directory as an ordered listing of named entries. It also models `os.rename`, `shutil.copytree(..., dirs_exist_ok=True)` as a merge, writing a file, and `shutil.rmtree`.
- `metadata_reader.dfy` models reading the version from `ServerData.json`, and `parse_mod_info`.
- `update_decision.dfy` models `check_mod_needs_update`.
- `mod_locator.dfy` models `find_existing_mod_path` and `resolve_target_mod_path`.
- `sync_spec.dfy` states each driver as a function of the configuration and the listings:
  - one step per configured mod;
  - a run over all the configured mods;
  - the summary returned at the end.
- `sync_engine.dfy` gives the drivers as loops over a `Disk` object whose listings they update. Each driver is proved equal to its function in `sync_spec.dfy`.
- `scenario.dfy` models the three-mod scenario of `test_smart_update.py` and derives the counts that test expects.

Operating-system failures are inputs. A `Faults` value names the configuration positions whose rename or copy fails, and says whether writing the manifest fails.

Three behaviours one would expect of the program do not hold in the code. The model follows the code:

- Sanitising a name is not idempotent: `"a ."` becomes `"a "`, and sanitising again gives `"a"`. `NameNormalizer.SanitizeNotIdempotent` proves this for the code as written.
- Only `smart_update_mods` writes `mod_info.json`. `process_mods_from_json` returns the dictionary without saving it.
- A second in-place run can still add or update mods. `SyncSpec.InPlaceCopyIsCurrent` shows only that one step leaves a mod with readable metadata current. There are two ways a later run copies again. First, take a mod whose source folder has no `ServerData.json`. The check always reports "source lacks ServerData.json", so the mod is copied again and counted as updated on every run. `SyncSpec.MetaLessModAlwaysUpdated` proves this. A source `ServerData.json` that cannot be read has the same effect: the check returns through its exception path. Second, a later mod can rename an earlier mod's folder, because the folder lookup matches the id as a substring. Take ids `ab` then `a`, and source folders `a` and `ab`, both at version `1`. The first run adds `ab_1`. Mod `a` then finds `ab_1`, renames it to `a_1` and skips it as current. On the second run `ab_1` is missing again, so `ab` is added again.

## Model

| member | source | states |
|---|---|---|
| Text.ContainsAt | mod_manager.py:35 | an occurrence of `mod_id` at any position makes `mod_id in name` true |
| Text.ContainsWitness | mod_manager.py:35 | when `mod_id in name` holds, there is a position where `mod_id` occurs in the name |
| NameNormalizer.SanitizeFolderName | mod_manager.py:18-23 | the result holds none of `<>:"/\|?*`, does not start with whitespace, does not end with '.', and is no longer than the input |
| NameNormalizer.SanitizeIsTrimmedSlice | mod_manager.py:21-22 | the result is a contiguous slice of the input with illegal characters replaced by '_'; whitespace was cut before it, and after it come dots and then whitespace; each cut stops at the first character it may not remove |
| NameNormalizer.ReplaceIllegal | mod_manager.py:21 | `re.sub` replaces each character Windows forbids in a folder name (`<`, `>`, `:`, `"`, `/`, backslash, vertical bar, `?`, `*`) by '_', one for one: the length is the same and every other character is kept |
| NameNormalizer.SanitizeFixedPointIffClean | mod_manager.py:18-23 | sanitising leaves a name unchanged exactly when the name has no illegal character, no whitespace at either end and no trailing dot |
| NameNormalizer.SanitizeNotIdempotent | mod_manager.py:22 | `"a ."` sanitises to `"a "`, which sanitises to `"a"`: sanitising twice can differ from sanitising once |
| NameNormalizer.SanitizeKeepsModId | mod_manager.py:18-23 | a non-empty mod id with no illegal character, no whitespace at either end and no trailing dot, that occurs in a name, still occurs in the sanitised name |
| NameNormalizer.GenerateModFolderName | mod_manager.py:25-29 | the standardised name has no illegal character; it is the sanitised source folder name, then '_', then the sanitised version ("未知" for an empty version) |
| NameNormalizer.GenerateSameIffVersionPartsAgree | mod_manager.py:25-29 | for one source folder, two versions give the same standardised name exactly when their sanitised forms agree |
| NameNormalizer.SanitizeKeepsUnknown | mod_manager.py:28 | the fallback version "未知" passes sanitising unchanged |
| NameNormalizer.EmptyVersionGivesUnknownSuffix | mod_manager.py:28 | an empty version gives the name `{sanitised folder}_未知` |
| NameNormalizer.GenerateKeepsModId | mod_manager.py:25-29 | for a stable id (`IsStableId`: non-empty, no illegal character, no whitespace at either end, no trailing dot), a mod id that occurs in the source folder name occurs in the standardised name, so later lookups by id still find the folder |
| Manifest.Put | mod_manager.py:195 | `mod_info[mod_id] = info` makes the key set the old keys plus `mod_id`, maps `mod_id` to `info`, and keeps keys distinct |
| Manifest.PutKeepsOthers | mod_manager.py:195 | the other keys keep their values; an existing key keeps its position; a new key goes at the end |
| FsModel.Lookup | mod_manager.py:64 | a name has an entry exactly when some entry of the listing bears it (`os.path.exists`) |
| FsModel.RenameEntry | mod_manager.py:286 | `os.rename` moves the entry to the new name, keeps the listing's length, removes the old name, keeps names distinct, and changes no other name |
| FsModel.MergeFolder | mod_manager.py:228 | a merge into an existing folder takes the source's mtime; it takes the source's `ServerData.json` when the source has one and otherwise keeps the destination's; it keeps files only the destination has and overwrites the files the source has |
| FsModel.MergeIdempotent | mod_manager.py:228 | copying the same folder twice gives the same result as copying it once |
| FsModel.MergeIntoEmpty | mod_manager.py:228 | copying into an empty folder reproduces the source folder |
| FsModel.CopyTree | mod_manager.py:225-232 | the copy fails exactly when a plain file holds the name; otherwise the name holds the merged folder (or the source itself when new, appended at the end) and nothing else changes |
| FsModel.WriteFile | mod_manager.py:237-240 | the write fails exactly when a directory holds the name; otherwise the name holds the new file and nothing else changes |
| FsModel.RemoveEntry | mod_manager.py:122 | `rmtree` removes exactly that entry and keeps every other entry |
| MetadataReader.VersionField | mod_manager.py:83-84 | `.get('revision', {}).get('version', '')` gives the version, "" when `revision` or `version` is absent, and raises exactly when `revision` is not an object |
| MetadataReader.ReadVersion | mod_manager.py:78-84 | a version is read exactly when the metadata parses and its `revision` is an object, and then it is the one `VersionField` gives |
| MetadataReader.ParseModInfo | mod_manager.py:209-223 | without readable metadata the result is (mod id, "未知"); otherwise the version is the read version and the name is `name`, else `id`, else the mod id |
| MetadataReader.ParseAfterCopy | mod_manager.py:209-223 | after a folder with metadata is copied over another, parsing the result gives what parsing the source gives |
| MetadataReader.NoVersionNamedLikeUnreadable | mod_manager.py:218-223 | a mod with an empty version and a mod with unreadable metadata get the same standardised name `{folder}_未知` |
| UpdateDecision.CheckModNeedsUpdate | mod_manager.py:57-101 | each reason holds exactly in its case (target missing, source or target metadata missing, read error, versions differ, source newer, up to date); no update is needed exactly when the versions agree and the source is not newer; the reported versions are as listed |
| UpdateDecision.CopiedModIsUpToDate | mod_manager.py:57-101 | right after a successful copy of a folder with readable metadata, the check reports that no update is needed |
| UpdateDecision.UpdateNeededUntilCopied | mod_manager.py:87-88 | differing readable versions give the "versions differ" reason, and copying the source over the target settles it |
| ModLocator.FirstModDir | mod_manager.py:33-36 | the index of the first directory whose name contains the id; no earlier entry is one |
| ModLocator.FindExistingModPath | mod_manager.py:39-45 | nothing is found exactly when no directory name contains the id; otherwise the result is the first such directory in listing order, it exists, and it is a directory |
| ModLocator.ResolveTargetModPath | mod_manager.py:31-37 | the result is what finding gives, with the standardised name as the fallback; without a matching directory it is the standardised name; otherwise it is the first matching directory |
| ModLocator.ResolvedExists | mod_manager.py:31-45 | a found path exists; without one, the resolved path exists exactly when the standardised name does |
| SyncSpec.ConfigModIds | mod_manager.py:109-117 | text that is not JSON and a missing `game` or `mods` are the two errors; otherwise there is one id per configured mod, in order: its `modId`, or "" when `modId` is missing |
| SyncSpec.LegacyRename | mod_manager.py:283-290 | the target changes only when a matching folder exists under another name, the standardised name is free, and the rename succeeds; then the standardised name holds that folder, the old name is gone, and no other name changes; names stay distinct |
| SyncSpec.EffectiveTarget | mod_manager.py:292 | the path checked is the standardised name when that exists, otherwise the found folder if any, otherwise the standardised name; it exists exactly when one of the two does |
| SyncSpec.InPlaceFound | mod_manager.py:277-313 | a found mod ends as added, updated, skipped or copy-failed, and names in the target stay distinct |
| SyncSpec.InPlaceOutcome | mod_manager.py:292-309 | skipped exactly when the check says no update; updated only when the checked path existed; added only when it did not; a copy is the copytree into the standardised name; otherwise the target is the one after the rename |
| SyncSpec.InPlaceFrame | mod_manager.py:281-306 | with distinct names, the in-place step changes no target entry other than the standardised folder and the first folder whose name contains the id |
| SyncSpec.InPlaceAddedOnlyWhenAbsent | mod_manager.py:292-306 | a mod counts as new only when neither its standardised name nor any folder containing its id was in the target |
| SyncSpec.InPlaceCopyIsCurrent | mod_manager.py:300-302 | after an in-place copy the standardised folder exists and a second check finds it up to date |
| SyncSpec.MetaLessModAlwaysUpdated | mod_manager.py:69-70 | a mod whose source folder lacks `ServerData.json` is copied and counted as updated whenever its standardised folder exists |
| SyncSpec.BundleFound | mod_manager.py:148-192 | a found mod ends as added, updated, skipped or copy-failed; the bundle changes at most at the standardised name and keeps names distinct |
| SyncSpec.BundleOutcome | mod_manager.py:159-192 | skipped exactly when the resolved target exists and the check's reason is not "versions differ"; updated only when it exists; added only when it does not; a copy is the copytree into the bundle |
| SyncSpec.BundleSkipsSameVersion | mod_manager.py:165-170 | an existing mod whose versions agree or cannot be compared is skipped, even when its source is newer |
| SyncSpec.ModStep | mod_manager.py:132-195 | an empty id is passed over; an id without a source directory is passed over; a found mod is recorded with its parsed info; in-place mode never touches the bundle and bundle mode never touches the target |
| SyncSpec.Record | mod_manager.py:178-195 | `new_mods` grows by one exactly on Added, `updated_mods` exactly on Updated, `skipped_mods` exactly on Skipped, and a failed copy changes none of them; `found_and_copied` becomes true on a copy; a found mod's record is stored under its id and every other key keeps its value |
| SyncSpec.RecordModInfo | mod_manager.py:195 | recording a found mod adds its id to `mod_info`, and the keys stay distinct |
| SyncSpec.StepOfWellBehaved | mod_manager.py:132-195 | every step records only found mods, each with the record parsed from its source folder, keeps names distinct, and writes only the listing its mode allows |
| SyncSpec.RunCounts | mod_manager.py:126-191 | over any prefix of the configuration, new + updated + skipped never exceeds the number of mods found in the source |
| SyncSpec.RunModInfo | mod_manager.py:195 | after any prefix, the keys of `mod_info` are exactly the ids found so far, they are distinct, and each found id maps to the `{name, version}` parsed from its source folder |
| SyncSpec.RunFoundAndCopied | mod_manager.py:257-307 | `found_and_copied` holds exactly when at least one mod was added or updated |
| SyncSpec.RunDistinct | mod_manager.py:132-195 | the whole loop keeps entry names distinct in the target and in the bundle |
| SyncSpec.RunWritesOnlyItsListing | mod_manager.py:178-181 | the bundle loop never changes the target root; the in-place loop never changes the bundle |
| SyncSpec.ResetUpdateFolder | mod_manager.py:120-123 | the reset fails exactly when `mods_update` is a plain file; otherwise `mods_update` is a fresh empty folder and every other entry is kept |
| SyncSpec.SaveManifest | mod_manager.py:198 | when the write succeeds, `mod_info.json` in the bundle holds the `mod_info` dictionary; when it fails, the bundle is unchanged; no other name changes |
| SyncSpec.InPlaceSync | mod_manager.py:245-322 | the in-place driver fails exactly on the two configuration errors; otherwise `total_mods` is the number of configured mods |
| SyncSpec.BundleSync | mod_manager.py:103-207 | the bundle driver raises the configuration errors first; beyond those it fails exactly when `mods_update` is a plain file; otherwise `total_mods` is the number of configured mods and `update_folder` names `mods_update` |
| SyncSpec.InPlaceSyncSummary | mod_manager.py:245-322 | `total_mods` is the configured count; the counters sum to at most the number found; `mod_info` holds exactly the found ids, each with the record parsed from its source folder; `found_and_copied` holds exactly when something was copied; names stay distinct |
| SyncSpec.BundleSyncSummary | mod_manager.py:103-207 | the same counts, keys and parsed records as in place; the target differs only in a fresh empty `mods_update`; when saving succeeds, `mod_info.json` holds the returned `mod_info` |
| SyncEngine.Disk.Rename | mod_manager.py:286 | a successful rename applies `RenameEntry` to the target; a failed one changes nothing |
| SyncEngine.Disk.CopyModFolder | mod_manager.py:225-232 | returns true exactly when the copy succeeds, and then the chosen root holds the copytree result; on failure nothing changes |
| SyncEngine.Disk.ResetUpdateFolder | mod_manager.py:120-123 | the target becomes the reset target and the bundle is empty; on failure nothing changes |
| SyncEngine.Disk.SaveModInfoJson | mod_manager.py:234-243 | writes `mod_info.json` into the bundle; returns "" exactly when the write fails, and the file's path otherwise |
| SyncEngine.LocateSourceMod | mod_manager.py:137-146 | the scan stops at the first directory whose name contains the id; a usable result exists exactly when such a directory exists |
| SyncEngine.SyncFoundModInPlace | mod_manager.py:277-310 | the rename, check and copy sequence updates the target and reports the outcome that `InPlaceFound` gives |
| SyncEngine.SyncFoundModToBundle | mod_manager.py:148-192 | the resolve, check and copy sequence updates the bundle and reports the outcome that `BundleFound` gives |
| SyncEngine.CountOutcome | mod_manager.py:178-195 | the counter updates and the `mod_info` store agree with `Record` |
| SyncEngine.ProcessConfiguredMod | mod_manager.py:267-313 | the inner scan over the source for one mod has the effect of `ModStep` in place |
| SyncEngine.ProcessModsFromJson | mod_manager.py:245-322 | the driver raises the same configuration errors and otherwise leaves the target and returns the summary that `InPlaceSync` describes |
| SyncEngine.UpdateConfiguredMod | mod_manager.py:132-195 | one loop iteration of `smart_update_mods` has the effect of `ModStep` in bundle mode |
| SyncEngine.SmartUpdateMods | mod_manager.py:103-207 | the driver raises the same errors and otherwise leaves the target, the bundle and the summary that `BundleSync` describes |
| Scenario.FirstModSkipped | test_smart_update.py:58-65 | `test_mod1`, at version 1.0 in both directories, is skipped and nothing is copied |
| Scenario.SecondModUpdated | test_smart_update.py:58-65 | `test_mod2`, at 2.0 in the source and 1.5 in the target, is copied into `mods_update` as updated |
| Scenario.ThirdModAdded | test_smart_update.py:58-65 | `test_mod3`, absent from the target, is copied into `mods_update` as new |
| Scenario.ScenarioRun | test_smart_update.py:105-111 | the loop over the three configured mods gives one new, one updated and one skipped mod, and records all three |
| Scenario.SmartUpdateScenario | test_smart_update.py:105-111 | `smart_update_mods` on the test's directories succeeds with 3 mods, 1 new, 1 updated and 1 skipped; `mods_update` holds the two copied folders and the manifest |

## Left out

- Console output (`print`) is not modelled. Operating-system error messages are not modelled either, because they contain paths. Of each human-readable reason string, only the case it stands for is kept, as `UpdateDecision.Reason`. The drivers read only whether the reason contains "版本不同". In the source, the reason for an unreadable `ServerData.json` embeds the exception message (mod_manager.py:101), and that message can contain a path. If the path itself contains "版本不同", the substring test at line 166 succeeds for the wrong reason. The model's `Reason` cannot carry such a message, so this case is not modelled.
- A failed copy, rename or write changes nothing. Partial copies left by a copy that fails midway are not modelled.
- Configuration values of the wrong JSON type are not modelled: a `mods` element that is not an object, a `modId` that is not a string, or a top level that is a list.
- Missing source or target roots, nested or overlapping roots, symbolic links and case-insensitive file systems are not modelled. Each root is a flat listing of named entries.
- Folder modification times are integers. Float precision is not modelled.
- `os.listdir` order is the listing's order. New entries are appended at the end, and a rename keeps its position.
- The contents of `mods_update` are a separate listing (`Disk.bundle`). In the target, the folder itself is an empty folder without metadata.
- The `update_folder` path is returned as the name `mods_update` relative to the target. The joined absolute path is not modelled.
- The contents of files other than `ServerData.json` and `mod_info.json` are opaque.
- `get_folder_size` is not modelled, and neither are the user-interface files (`ui_enhanced.py`, `ui_components_enhanced.py`). They are not part of this model.
- The JSON text of `mod_info.json` is not modelled. The file holds the `mod_info` dictionary as a value, so formatting and escaping are not modelled.
- SyncSpec.ModStep, SyncSpec.RunWritesOnlyItsListing, SyncEngine.ProcessModsFromJson: the contents of `mods_update` are a listing kept apart from the target, so the in-place driver never sees them. When a configured id is a substring of "mods_update" (for example "update"), `find_existing_mod_path` can return `target/mods_update` (mod_manager.py:281-302). The source then renames that folder to the standardised name and merges into it. The model renames and merges only the empty folder entry. The bundle's contents stay where they were, so the claim that the in-place driver never changes the bundle depends on this separation.
- Wrong JSON types inside `ServerData.json` are not modelled. A non-string `revision.version` makes `re.sub` raise a TypeError in `generate_mod_folder_name` (mod_manager.py:150, 278), which ends the whole run. A non-string `name` or `id` is stored in `mod_info` as it is. The model's versions, names and ids are strings or absent.
- Failures of `rmtree` and `makedirs` on `mods_update` (mod_manager.py:122-123) are not among the faults. The one failure modelled is a plain file named `mods_update`.
- SyncEngine.Disk.SaveModInfoJson: the returned path is `mods_update/mod_info.json` rather than the absolute path.
