# account-sync in Dafny

This project models the engine of a tool that syncs the per-character
settings folders of a game client. The Python back end has four parts:

- It scans the client's `userdata` folder for role folders. They sit at
  `userdata/<account>/<region>/<server>/<role>`.
- It copies one role's folder over one or more other roles' folders.
- It makes, lists, restores and deletes timestamped backups of role folders,
  and keeps at most `max_backups` backups per role.
- It keeps an in-memory settings dictionary layered over defaults.

The React front end's role selector picks a source role and a list of target
roles. It also filters the two lists it shows.

The model works on one abstract disk, `FsTree.Node`. A node is a file with a
size or a directory with an mtime and an ordered list of named entries, in
`iterdir` order. `shutil.copytree`, `shutil.rmtree`, `mkdir(parents=True,
exist_ok=True)` and `rmtree`-then-`copytree` are functions on that tree. Each
returns the exception it would raise (`FsTree.OsError`). pathlib's parsing,
`str`, `/` and `.parent` are functions on component lists (`Paths`). A copy
keeps the source folder's mtime as `copystat` does, and a new directory gets
the clock reading passed in.

Each Python class with state is a Dafny class:

- `Scanner.RoleScanner`
- `Copier.RoleCopier`
- `Backups.BackupManager`
- `Config.ConfigManager`

Each is paired with the shared `FsTree.FileSystem` object. Every method that
changes the disk or the settings is proved equal to a specification function
of the old state. Separate lemmas prove what the code promises about those
functions. Every method that changes the disk also keeps
`FsTree.FileSystem.Valid`: the root is a directory, and the names in each
directory are distinct components. The guarantee lemmas need exactly that of
the disk, so they apply again after any sequence of calls.

Modules:

- `Wrappers`: `Option` and `Result`.
- `Paths`: pathlib paths.
- `FsTree`: the disk and the shutil operations.
- `Strings`: split/join, `rsplit`, ordering and ASCII lower case.
- `Clock`: `strftime` formats.
- `Models`: `RoleInfo`, `BackupInfo` and the JSON value type.
- `Scanner`: `role_scanner.py`.
- `Copier`: `role_copier.py`.
- `Backups`: `backup_manager.py`.
- `Config`: `config_manager.py`.
- `Selector`: `RoleSelector.jsx`.

Behaviour of the code as written that the proofs make explicit:

- `copy_role` does not refuse a role copied onto itself. It deletes the
  folder and then fails (`Copier.CopyOntoItself`). Only `validate_copy`
  rejects this case.
- Backups are ranked by mtime, and a backup folder keeps the role folder's
  mtime. So with `max_backups = 1`, when an earlier backup is newer than the
  role folder, `backup_role` reports success but its own cleanup has already
  removed the new backup (`Backups.BackupEvictsItself`).
- `delete_backup("")` deletes the whole backup folder, because
  `backup_dir / ""` is `backup_dir` (`Backups.DeleteEmptyName`).

## Model

| member | source | states |
|---|---|---|
| Models.RoleInfo.Display | backend/models.py:18-19 | `str(role)` is account, region, server and role joined by "-" |
| Models.DisplaySplits | backend/models.py:18-19 | when no name field contains "-", splitting `str(role)` on "-" gives back the four fields in order |
| Models.RoleInfo.ToDict | backend/models.py:21-28 | the dictionary has exactly the keys account, region, server, role, path, each holding that field unchanged |
| Models.FromDict | backend/models.py:30-32 | `RoleInfo(**data)` succeeds exactly when the keys are the five field names, and then `to_dict` gives `data` back; otherwise it names the unexpected or the missing keywords |
| Models.FromDictToDict | backend/models.py:21-32 | `from_dict(r.to_dict()) == r` for every role |
| Models.RoleEquality | backend/models.py:9-16 | two roles are equal exactly when all five fields are equal |
| Models.BackupInfo.ToDict | backend/models.py:44-51 | exactly the keys name, path, size, created_at, role_info, each holding that field unchanged |
| Models.BackupToDictInjective | backend/models.py:44-51 | equal dictionaries come only from equal backups, so `to_dict` loses nothing |
| Scanner.RoleScanner.ScanAllRoles | backend/role_scanner.py:22-72 | the four nested loops return exactly `Scan` of the userdata folder, and an empty list when the folder does not exist |
| Scanner.WalkRegions | backend/role_scanner.py:46-67 | the region loop appends, in iterdir order, the roles of every region folder of one account |
| Scanner.WalkServers | backend/role_scanner.py:51-67 | the server loop appends the roles of every server folder of one region |
| Scanner.WalkRoles | backend/role_scanner.py:56-67 | the role loop appends one `RoleInfo` per role folder of one server, with the path `str(role_folder)` |
| Scanner.Subdirs | backend/role_scanner.py:40-43 | the sub-folder list is empty exactly when the account folder has no directory entries |
| Scanner.ScanExact | backend/role_scanner.py:31-67 | a role is returned exactly when `userdata/account/region/server/role` is a directory, its account folder has a sub-folder, and its path is that folder's `str`; files at any level contribute nothing, and no role is listed twice |
| Scanner.AccountRolesExact | backend/role_scanner.py:36-67 | the same membership and no-duplicates statement for the account loop over one listing |
| Scanner.RegionRolesExact | backend/role_scanner.py:46-67 | the same statement for the region loop |
| Scanner.ServerRolesExact | backend/role_scanner.py:51-67 | the same statement for the server loop |
| Scanner.RolesInExact | backend/role_scanner.py:56-67 | the same statement for the role loop |
| Scanner.ScanPaths | backend/role_scanner.py:60-66 | parsing a returned role's path gives `userdata + [account, region, server, role]` |
| Scanner.GetAccounts | backend/role_scanner.py:74-76 | strictly ascending, so duplicate-free, and holds exactly the accounts of the roles |
| Scanner.GetRegions | backend/role_scanner.py:78-80 | strictly ascending and holds exactly the regions of the roles |
| Scanner.GetServers | backend/role_scanner.py:82-84 | strictly ascending and holds exactly the servers of the roles |
| Scanner.SortedSet | backend/role_scanner.py:74-84 | `sorted(set(xs))` is strictly ascending and has the elements of `xs` |
| Scanner.AscendingUnique | backend/role_scanner.py:74-84 | two strictly ascending lists with the same elements are equal, so each `get_*` result is determined by its element set |
| Scanner.FilterRoles | backend/role_scanner.py:86-109 | keeps exactly the roles matching every non-empty filter argument, and returns the input unchanged when every filter is None or empty |
| Scanner.FilterRolesSelected | backend/role_scanner.py:100-109 | the three successive comprehensions equal one in-order filter by all three conditions, so the result is an order-preserving subsequence |
| Scanner.Keep | backend/role_scanner.py:103-107 | one comprehension keeps exactly the roles whose field equals the argument |
| Copier.CopyMissingSource | backend/role_copier.py:42-43 | a missing source fails and leaves the disk as it was |
| Copier.CopyDisjoint | backend/role_copier.py:45-52 | with source and target apart, the copy succeeds exactly when the source is a directory and the target is writable; on success the target holds the source's tree and the source is unchanged |
| Copier.CopyFrame | backend/role_copier.py:45-50 | nothing outside the target path changes |
| Copier.CopyOntoItself | backend/role_copier.py:45-55 | copying a role onto itself reports failure, and the role's folder is gone |
| Copier.CopyWellFormed | backend/role_copier.py:45-50 | the copy keeps every directory's entry names distinct |
| Copier.RoleCopier.CopyRole | backend/role_copier.py:26-55 | the new disk and the returned result are those of `CopyEffect`; every exception becomes a failure result; a well-formed disk stays well formed |
| Copier.Batch | backend/role_copier.py:72-84 | one result per target |
| Copier.BatchSteps | backend/role_copier.py:72-84 | target `i` is copied on the disk the first `i` copies left, whatever they returned, so a failure never stops later targets and targets go in input order |
| Copier.SummarizeIsReference | backend/role_copier.py:78-84 | the counted summary equals the number of successes and the in-order list of failures, each with `role == str(target)` and the copy's message |
| Copier.SummarizeCounts | backend/role_copier.py:68-92 | `success_count + len(failed) == len(targets)` |
| Copier.BatchFrame | backend/role_copier.py:72-84 | nothing apart from every target path changes |
| Copier.BatchCopies | backend/role_copier.py:72-84 | when the source and the targets lie apart, every target whose copy succeeded holds the source's tree at the end |
| Copier.Announcements | backend/role_copier.py:73-74 | call `i` is `(i, total, "copying to: " + str(targets[i]))` |
| Copier.RoleCopier.CopyToMultiple | backend/role_copier.py:57-92 | the loop's disk and counts equal the batch specification, and the callback receives each target's announcement, then `(total, total, done)`, or nothing when no callback is set; a well-formed disk stays well formed |
| Copier.RoleCopier.SetProgressCallback | backend/role_copier.py:17-24 | a callback is set afterwards |
| Copier.ValidateCopy | backend/role_copier.py:94-121 | checks in order: missing source, then the same path, then a missing target parent, then valid; each verdict holds exactly when its condition holds and the earlier ones fail |
| Copier.ValidateRejectsSelf | backend/role_copier.py:113-115 | a role is never a valid target of itself |
| Copier.ValidatedCopySucceeds | backend/role_copier.py:106-121 | a validated copy between disjoint folders, with no file in the target's place, succeeds and leaves the source's tree at the target |
| Backups.BackupDirFor | backend/backup_manager.py:26-30 | the backup folder is the given one when it is non-empty, otherwise `userdata.parent / "userdata_backup"` |
| Backups.BackupManager.Open | backend/backup_manager.py:15-35 | the manager exists exactly when `mkdir(parents=True, exist_ok=True)` of the backup folder succeeds, and the disk is then what that leaves; the disk stays well formed and a manager it returns is valid |
| Backups.BackupName | backend/backup_manager.py:53-55 | a backup's name starts with the role's cleanup prefix `account_region_server_role_` |
| Backups.BackupNameInjective | backend/backup_manager.py:53-55 | two backups get the same folder name only for roles with the same key backed up in the same second |
| Backups.RoleInfoOfName | backend/backup_manager.py:124-125 | for a name `backup_role` made, `rsplit('_', 2)[0]` is `account_region_server_role` |
| Backups.BackupManager.BackupRole | backend/backup_manager.py:37-71 | the disk and the result are those of `Backup`: copy, then cleanup, with any exception a failure; the manager stays valid |
| Backups.BackupMissingRole | backend/backup_manager.py:50-51 | a missing role folder is reported and nothing changes |
| Backups.BackupKeepsOthers | backend/backup_manager.py:54-91 | after a backup, every entry of the backup folder that is not a directory with the role's prefix is as it was |
| Backups.BackupSurvives | backend/backup_manager.py:54-68 | when the role folder is newer than every earlier backup of the role and `max_backups >= 1`, the reported new folder holds the role's tree |
| Backups.BackupEvictsItself | backend/backup_manager.py:59-91 | with `max_backups = 1` and an earlier backup newer than the role folder, the result is success but the new folder is gone |
| Backups.SortByMtime | backend/backup_manager.py:81-86 | newest-first by mtime and a permutation of its input |
| Backups.SortByMtimeStable | backend/backup_manager.py:81-86 | the sort is stable: for every mtime, the backups that have it keep their `iterdir` order, which decides the survivors on ties |
| Backups.InsertByMtimeSorted | backend/backup_manager.py:81-86 | inserting an entry into a newest-first list keeps it newest first |
| Backups.Candidates | backend/backup_manager.py:82-83 | exactly the directory entries whose name has the prefix |
| Backups.Cleanup | backend/backup_manager.py:73-93 | `iterdir` of a missing or non-directory backup folder raises |
| Backups.CleanupEffect | backend/backup_manager.py:80-93 | the cleanup succeeds; each backup past the first `max_backups` is removed; the kept backups and every entry without the prefix are unchanged; nothing apart from the removed folders changes |
| Backups.CleanupRetains | backend/backup_manager.py:80-91 | every remaining directory with the role's prefix is a survivor, and at most `max_backups >= 0` of them remain |
| Backups.SurvivorsNewest | backend/backup_manager.py:81-89 | no evicted backup is newer than a kept one |
| Backups.BackupManager.CleanupOldBackups | backend/backup_manager.py:73-93 | the loop leaves the disk `Cleanup` gives, with a failed removal skipped, or raises as `iterdir` would; the manager stays valid |
| Backups.ListedOrder | backend/backup_manager.py:108-115 | the listed folders are directories of the backup folder, newest first, with distinct names; without a truthy limit they are all of them, each once; with a positive limit they are the first `limit` of that order |
| Backups.CatalogEntries | backend/backup_manager.py:117-134 | one `BackupInfo` per listed folder, in order, with its name, path, byte size, mtime as local time, and `rsplit('_', 2)[0]` of its name |
| Backups.BackupPathsDistinct | backend/backup_manager.py:126-129 | backup folders with different names are listed with different `path` strings |
| Backups.BackupManager.ListBackups | backend/backup_manager.py:95-139 | the loop returns the catalog of the backup folder, which is empty when it cannot be listed |
| Backups.GetDirSize | backend/backup_manager.py:194-204 | the work-list loop returns the total size of the files below the path, and 0 for a missing path or a file |
| Backups.Restore | backend/backup_manager.py:141-169 | the restore specification |
| Backups.RestoreMissing | backend/backup_manager.py:156-157 | an unknown backup is reported and nothing changes |
| Backups.RestoreCopies | backend/backup_manager.py:159-166 | with the backup and target apart, success holds exactly when the backup is a directory and the target writable; the target then holds the backup's tree and the backup is kept; nothing apart from the target changes |
| Backups.BackupManager.RestoreBackup | backend/backup_manager.py:141-169 | the disk and the result are those of `Restore`; the manager stays valid |
| Backups.Delete | backend/backup_manager.py:171-192 | the delete specification |
| Backups.DeleteMissing | backend/backup_manager.py:182-185 | an unknown backup name is reported and nothing changes |
| Backups.DeleteRemoves | backend/backup_manager.py:182-192 | deleting an existing path succeeds exactly when it is a non-root directory; a failure changes nothing; afterwards nothing is left at or below it; nothing apart from it changes |
| Backups.DeleteEntry | backend/backup_manager.py:182-189 | deleting a backup by a plain name drops exactly that entry from the backup folder's listing |
| Backups.DeleteEmptyName | backend/backup_manager.py:182-189 | `delete_backup("")` removes the backup folder itself |
| Backups.BackupManager.DeleteBackup | backend/backup_manager.py:171-192 | the disk and the result are those of `Delete`; the manager stays valid |
| Backups.BackupWellFormed | backend/backup_manager.py:37-71 | a backup, with its cleanup, leaves a well-formed disk |
| Backups.CleanupWellFormed | backend/backup_manager.py:73-93 | a cleanup leaves a well-formed disk |
| Backups.RestoreWellFormed | backend/backup_manager.py:141-169 | a restore leaves a well-formed disk, whether or not it succeeds |
| Backups.DeleteWellFormed | backend/backup_manager.py:171-192 | a delete leaves a well-formed disk |
| Config.GetOr | backend/config_manager.py:65-67 | the stored value when the key is present, otherwise the default |
| Config.Overlay | backend/config_manager.py:73-75 | `dict.update`: the keys of `kw` take its values, and every other key keeps its own |
| Config.Merge | backend/config_manager.py:40-48 | a parsed JSON object is laid over the settings; a missing or unreadable file keeps them; no key is lost |
| Config.SetThenGet | backend/config_manager.py:65-71 | after `set(k, v)`, `get(k)` is `v` and every other key reads as before |
| Config.UpdateThenGet | backend/config_manager.py:73-75 | `update(**kw)` overwrites exactly the keys of `kw` |
| Config.MergeIdempotent | backend/config_manager.py:43-44 | loading the same file twice gives what loading it once gives |
| Config.LoadedKeepsDefaults | backend/config_manager.py:29-44 | every default key survives loading, with its default value unless the file sets it |
| Config.ConfigManager.constructor | backend/config_manager.py:22-31 | settings start as the defaults with the file merged in, so with no file they equal `DEFAULT_CONFIG` |
| Config.ConfigManager.Load | backend/config_manager.py:33-48 | the settings become `Merge` of the old ones and the file |
| Config.ConfigManager.Get | backend/config_manager.py:65-67 | the stored value, or the default when the key is absent |
| Config.ConfigManager.Set | backend/config_manager.py:69-71 | only key `k` changes, to `v` |
| Config.ConfigManager.Update | backend/config_manager.py:73-75 | the settings become the old ones overlaid with `kw` |
| Config.ConfigManager.Reset | backend/config_manager.py:77-79 | the settings equal `DEFAULT_CONFIG` again |
| Selector.RoleDisplay | frontend/src/components/RoleSelector.jsx:169-170 | the label equals the back end's `str(role)` |
| Selector.NameFilter | frontend/src/components/RoleSelector.jsx:43-45 | keeps, as a subsequence, exactly the roles whose lower-cased name contains the lower-cased search |
| Selector.FirstMatch | frontend/src/components/RoleSelector.jsx:46-47 | the index of the first matching role, with no earlier match, and none exactly when nothing matches |
| Selector.FindPath | frontend/src/components/RoleSelector.jsx:56 | `roles.find` by path: the first role with that path, or none when no role has it |
| Selector.WithoutPath | frontend/src/components/RoleSelector.jsx:74 | keeps, as a subsequence, exactly the targets with another path |
| Selector.SearchSourceEffect | frontend/src/components/RoleSelector.jsx:38-53 | an empty or unmatched search records the text only; otherwise the first matching role becomes the source and no target keeps its path |
| Selector.FirstOfFilter | frontend/src/components/RoleSelector.jsx:43-47 | `filtered[0]` is the role at the first matching index |
| Selector.ChooseSourceExcludes | frontend/src/components/RoleSelector.jsx:55-60 | the source becomes the role with the chosen path, or none if there is none; with a source no target keeps its path, without one the targets are unchanged |
| Selector.ToggleIgnored | frontend/src/components/RoleSelector.jsx:62-69 | a right-click, or a click on the source role, changes nothing |
| Selector.ToggleEffect | frontend/src/components/RoleSelector.jsx:71-77 | an unselected role is appended at the end; a selected one has every entry with its path removed, and the list gets shorter |
| Selector.ToggleTwice | frontend/src/components/RoleSelector.jsx:71-77 | toggling the same unselected, non-source role twice restores the selection |
| Selector.ToggleDistinct | frontend/src/components/RoleSelector.jsx:62-78 | toggling keeps the target paths pairwise distinct |
| Selector.TargetCandidatesExact | frontend/src/components/RoleSelector.jsx:160-167 | `filteredTargetRoles` is a subsequence of the roles that keeps exactly those passing every non-empty filter and the search, other than the source |
| Selector.SourceNeverCandidate | frontend/src/components/RoleSelector.jsx:165 | no role with the source's path is ever a target candidate |
| Selector.SourceCandidatesExact | frontend/src/components/RoleSelector.jsx:153-158 | `filteredSourceRoles` is every role when there is no search, otherwise exactly the name matches, in order |
| Paths.PartsRender | backend/role_scanner.py:65 | `Path(str(p))` parses back to `p`, so a scanned role's `path` string leads back to its folder |
| FsTree.CopyTreeLookup | backend/role_copier.py:50 | after `copytree`, the destination holds the source's tree and nothing else changes |
| FsTree.RmTreeBelow | backend/role_copier.py:47 | after `rmtree`, nothing is left at or below the path |
| FsTree.MakeDirsLookup | backend/backup_manager.py:35 | after `mkdir(parents=True, exist_ok=True)` the folder exists and nothing apart from it changes |

## Left out

- The Flask application, the path resolver, and the other front-end components are outside this model. So are the HTTP client and the Electron shell. The parts of `RoleSelector.jsx` left out are its rendering, context menu, folder opening, the filter options it fetches, and its effects.
- The disk only fails structurally: a missing path, a file where a directory is expected, an existing destination, or removal of the root. Permission errors, locked files and I/O errors are not modelled.
- An exception in the middle of `scan_all_roles` cannot happen in the model: the tree cannot change during the walk. The "roles so far" fallback on that path is therefore not modelled.
- A relative path is treated as absolute. `..` is not resolved: it is kept as a name, which no folder has.
- Paths, Copier.ValidateCopy, Copier.CopyEffect, Scanner.ScanPaths: paths follow POSIX pathlib, with names compared case-sensitively and rendered with `/`. The program runs on Windows, where pathlib compares names case-insensitively and `str` renders with `\` and a drive letter. For example, `validate_copy` of `.../A/role` onto `.../a/role` reports the same path there, while the model reports a valid copy.
- Models.FromDict takes a dictionary of strings. `RoleInfo(**data)` also accepts values of other types, because dataclasses do not check types. `Models.Value` has no floats, so a settings file that holds a float cannot be expressed.
- Case folding is ASCII only. JavaScript's `toLowerCase` also folds other letters.
- Messages are constructors, not the Chinese texts the code returns. An exception's text is its `OsError` kind.
- Time is an input. `backup_role` takes the clock as `Clock.Instant`: the epoch for new folders, and the local date-time for the name. `list_backups` takes the local-time conversion as a function. mtimes are whole numbers, not floats.
- `copy_to_multiple` takes one clock value for the whole batch.
- Creating or removing an entry does not update the parent directory's mtime.
- The progress callback is a flag. `CopyToMultiple` returns the sequence of calls it would make.
- `ConfigManager.load` and `save` do not read or write the JSON file. `Load` takes what `json.load` returned. `Config.Merge`: a top-level JSON list of key/value pairs, which `dict.update` would accept, is treated as raising. Key order of the settings dictionary is not modelled.
- `DEFAULT_CONFIG` is a constant value, so no `set` or `update` can change it. This holds by construction rather than as a lemma.
- Scanning is deterministic. `ScanAllRoles` returns the function `Scan` of the disk, so two scans of an unchanged tree give identical lists. This is not a separate lemma.
- The role-selector handlers are functions from the selector's state to its next state. The React setters that publish that state are not modelled.
- Backups.BackupSurvives: stated only when the role folder is strictly newer than every earlier backup of the role. The code does not always keep the new backup (see `Backups.BackupEvictsItself`).
- Backups.CleanupRetains: the bound `at most max_backups` is stated for `max_backups >= 0`. A negative value slices from the end as Python does, and that case is modelled but not summarised.
