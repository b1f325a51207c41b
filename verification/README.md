# hbslovely-ide in Dafny

A model of the core of hbslovely-ide, a browser IDE built with Angular on top of a small Express server. The model covers:

- **Client tabs.** Two tab models keep the open tabs: `EditorService` keys tabs by id and `FileService` by index.
- **Build and serve status.** `ProjectRunnerService` tracks build and serve state.
- **Editor settings.** `EditorConfigService` holds the editor configuration.
- **Current project.** `ProjectService` keeps the current project and the stored project id.
- **Creation dialog.** `ProjectCreatorComponent` validates the new project's name and runs the create and cancel flow.
- **Preview.** `PreviewComponent` classifies a file by its extension.
- **File tree.** `FileExplorerComponent` builds the project file tree.
- **Local store.** `StorageService` keeps projects and files in IndexedDB.
- **Server.** `server.ts` spawns child processes and maps their outcome, guards file paths, creates projects in a fixed step order and lists project files.

Every service method is one transition on an immutable record. Anything the code awaits is a parameter of its transition: an HTTP call, an IndexedDB request, a file-system call or a child process. The same goes for ids and timestamps. `Date.now()` tab ids are a fresh-id argument, and `new Date()` is a natural number. The project runner and the creation dialog await in the middle of a method, so each of those transitions is split in two: `Start…` runs before the await and `Complete…`/`Finish…` after it. Together they show what other callers can observe in between.

Module layout, one module per source file:

- `Wrappers`, `Seqs` and `Strings` hold the JavaScript behaviour the code relies on: `find`/`findIndex`, `filter`, `splice`, `split`/`join`, `includes`, `startsWith`, `toLowerCase` and a string order.
- `Models` holds the shared records.
- `EditorService`, `FileService`, `ProjectRunner`, `EditorConfig`, `ProjectService`, `ProjectCreator`, `Preview`, `FileExplorer`, `Storage` and `Server` model the sources named after them.

## Model

| member | source | states |
|---|---|---|
| Seqs.FindIndex | src/app/services/editor.service.ts:46 | `findIndex` gives -1 exactly when no element matches; otherwise the first index that matches |
| Seqs.Filter | src/app/services/editor.service.ts:49 | `filter` keeps exactly the elements that satisfy the predicate |
| Seqs.FilterConcat | src/app/services/editor.service.ts:49 | `filter` distributes over concatenation and keeps or drops each single element by the predicate, so it keeps the order and multiplicity of what it keeps |
| Seqs.FilterRemovesOne | src/app/services/editor.service.ts:49 | when only the element at index k fails the predicate, filtering removes that element and keeps the order of the rest |
| Strings.JoinSplit | src/app/components/file-explorer/file-explorer.component.ts:154 | joining the pieces of `split` with the same separator gives the string back |
| Strings.SplitJoin | src/app/components/file-explorer/file-explorer.component.ts:166 | splitting a join of separator-free pieces gives the pieces back |
| Strings.SplitAround | src/app/components/file-explorer/file-explorer.component.ts:154 | splitting `a + sep + b` gives the pieces of `a` followed by the pieces of `b` |
| Strings.Includes | src/app/services/storage.service.ts:199 | `includes` holds exactly when the substring occurs at some position |
| Strings.ToLowerSplit | src/app/components/preview/preview.component.ts:170 | lower-casing commutes with splitting on a non-letter separator |
| Strings.LexLeTransitive | src/app/components/file-explorer/file-explorer.component.ts:150 | the order standing in for `localeCompare` is transitive (`LexLeTotal`: it is total) |
| EditorService.OpenFile | src/app/services/editor.service.ts:27-42 | an open path is re-activated and the tab list is unchanged; a new path is appended as a clean tab and becomes active |
| EditorService.OpenTwiceOneTab | src/app/services/editor.service.ts:33-41 | opening the same path twice in a row leaves one tab for it and the same active tab |
| EditorService.OpenFilePreservesValid | src/app/services/editor.service.ts:27-42 | with a fresh id, opening keeps one tab per path, distinct ids, and an active tab exactly when tabs are open |
| EditorService.CloseFile | src/app/services/editor.service.ts:44-58 | an unknown id changes nothing; the remaining tabs are exactly those with another id; the active tab changes only when it was closed |
| EditorService.CloseActiveTab | src/app/services/editor.service.ts:52-56 | closing the active tab k removes tab k and activates tab k+1, or k-1 when k was last, or none |
| EditorService.CloseOtherTab | src/app/services/editor.service.ts:48-50 | closing a tab that is not active removes exactly that tab and keeps the active one |
| EditorService.CloseFilePreservesValid | src/app/services/editor.service.ts:44-58 | closing keeps the session invariant |
| EditorService.UpdateFileContent | src/app/services/editor.service.ts:60-78 | only the first tab with the id changes; it gets the new content and becomes dirty; the active tab is refreshed only when it has that id |
| EditorService.UpdatePreservesValid | src/app/services/editor.service.ts:60-78 | editing keeps the session invariant |
| EditorService.ActivateFile | src/app/services/editor.service.ts:80-86 | the first tab with the id becomes active; an unknown id changes nothing |
| EditorService.ActivatePreservesValid | src/app/services/editor.service.ts:80-86 | activating keeps the session invariant |
| FileService.OpenFile | src/app/services/file.service.ts:33-46 | a new path is appended and made active; an open path is re-activated at its first index; the argument becomes the current file |
| FileService.OpenFilePreservesValid | src/app/services/file.service.ts:33-46 | opening keeps the invariant: one tab per path, a valid active index exactly when tabs are open, and a current file exactly then |
| FileService.CloseFile | src/app/services/file.service.ts:48-61 | the `splice` removes the tab at the index; an empty list resets the state; closing at or before the active index moves it back one, not below 0 |
| FileService.CloseFilePreservesValid | src/app/services/file.service.ts:48-61 | closing at any integer index keeps the invariant |
| FileService.CloseKeepsActiveFile | src/app/services/file.service.ts:55-58 | closing another tab keeps the same file active; closing the active tab activates the previous one, or the new first tab |
| FileService.AddFile | src/app/services/file.service.ts:63-67 | the record is appended and the tabs are untouched |
| FileService.DeleteFile | src/app/services/file.service.ts:88-98 | every record with the path is dropped; an open tab for it is closed as by `closeFile`; otherwise the tabs are untouched |
| FileService.AddFilePreservesValid | src/app/services/file.service.ts:63-67 | adding a record keeps the invariant |
| FileService.UpdateFile | src/app/services/file.service.ts:69-86 | a path not in the records changes nothing, even when open; otherwise the record, its open tab and, if active, the current file are replaced |
| FileService.UpdateFilePreservesValid | src/app/services/file.service.ts:69-86 | updating keeps the invariant |
| FileService.DeleteFilePreservesValid | src/app/services/file.service.ts:88-98 | deleting keeps the invariant and leaves the path closed |
| ProjectRunner.StartBuild | src/app/services/project-runner.service.ts:42-47 | starting a build sets the flag, clears the output and error, and leaves every serve field alone |
| ProjectRunner.CompleteBuild | src/app/services/project-runner.service.ts:50-69 | success replaces the output with the success line; failure records the error message or 'Unknown error occurred'; the serve fields are untouched |
| ProjectRunner.BuildProject | src/app/services/project-runner.service.ts:36-70 | a running build makes the call return false with no change; otherwise it reports success exactly when the call resolves |
| ProjectRunner.CompleteServe | src/app/services/project-runner.service.ts:86-108 | success sets the URL and the single serving line; failure clears the flag and records the error; the build fields are untouched |
| ProjectRunner.ServeProject | src/app/services/project-runner.service.ts:72-109 | a running serve makes the call return false; success sets the URL and the serving line; failure clears the flag and records the error |
| ProjectRunner.StopServing | src/app/services/project-runner.service.ts:111-119 | the serving flag, URL and output are cleared; the serve error and the build fields are kept |
| ProjectRunner.AddBuildOutput | src/app/services/project-runner.service.ts:121-127 | appends one line to the build output and changes nothing else |
| ProjectRunner.AddServeOutput | src/app/services/project-runner.service.ts:129-135 | appends one line to the serve output and changes nothing else |
| ProjectRunner.ClearOutput | src/app/services/project-runner.service.ts:137-144 | both outputs become empty; flags, URL and errors are kept |
| ProjectRunner.BuildSuccessOverwritesInterleavedOutput | src/app/services/project-runner.service.ts:53-57 | lines added while a build is awaited are lost when it succeeds |
| ProjectRunner.BuildAndServeIndependent | src/app/services/project-runner.service.ts:36-109 | a build never changes serve fields and a serve never changes build fields |
| EditorConfig.Default | src/app/services/editor-config.service.ts:15-20 | the defaults are autoSave, autoComplete, tab size 2 and insertSpaces |
| EditorConfig.UpdateConfig | src/app/services/editor-config.service.ts:30-35 | each given field takes the new value and each absent field keeps the old one |
| EditorConfig.UpdateTwiceIsMerge | src/app/services/editor-config.service.ts:30-35 | two updates equal one update with the later partial taking precedence |
| EditorConfig.UpdateIdempotent | src/app/services/editor-config.service.ts:30-35 | repeating an update changes nothing more |
| EditorConfig.UpdateEmptyIsIdentity | src/app/services/editor-config.service.ts:30-35 | an empty partial config changes nothing |
| EditorConfig.ToggleAutoSave | src/app/services/editor-config.service.ts:37-40 | negates autoSave and keeps the other fields |
| EditorConfig.ToggleAutoComplete | src/app/services/editor-config.service.ts:42-45 | negates autoComplete and keeps the other fields |
| EditorConfig.ToggleTwiceRestores | src/app/services/editor-config.service.ts:37-45 | toggling twice restores the configuration |
| ProjectService.LoadProject | src/app/services/project.service.ts:30-40 | a response sets the current project and stores the requested id; a failure clears both |
| ProjectService.Construct | src/app/services/project.service.ts:14-20 | a missing or empty stored id loads nothing; otherwise the stored project is loaded |
| ProjectService.CreateProject | src/app/services/project.service.ts:42-55 | a non-null response becomes current and its id is stored; a null response or a failure changes neither |
| ProjectService.DeleteProject | src/app/services/project.service.ts:72-78 | the current project and stored id are cleared only when the deleted id is the current one and the call succeeds |
| ProjectService.TransitionsKeepSynced | src/app/services/project.service.ts:30-78 | the stored id always names the current project when there is one |
| ProjectService.CurrentValueIsLastSet | src/app/services/project.service.ts:26-28 | `getCurrentProjectValue` returns the most recently set project |
| ProjectCreator.ValidName | src/app/components/project-creator/project-creator.component.ts:51 | a name is valid exactly when it is non-empty and every character is a lower-case letter, a digit or '-' |
| ProjectCreator.StartLogs | src/app/components/project-creator/project-creator.component.ts:68-93 | three stdout lines, or four when a description is given, starting with the start line |
| ProjectCreator.StartCreate | src/app/components/project-creator/project-creator.component.ts:63-93 | only a valid form with no creation running starts one; it resets the log |
| ProjectCreator.FinishCreate | src/app/components/project-creator/project-creator.component.ts:95-131 | success disables cancel, logs the success line and closes with true; failure clears `creating` and logs the failure line plus the error's message when it is an Error |
| ProjectCreator.Create | src/app/components/project-creator/project-creator.component.ts:63-133 | the composite transition: no-op unless the form is valid and idle; otherwise the success or failure outcome above |
| ProjectCreator.Cancel | src/app/components/project-creator/project-creator.component.ts:135-139 | closes with false unless a creation is running that can no longer be cancelled |
| ProjectCreator.CancelAfterSuccessIsNoOp | src/app/components/project-creator/project-creator.component.ts:101 | after a successful create, cancel and create both do nothing |
| ProjectCreator.RetryAfterFailure | src/app/components/project-creator/project-creator.component.ts:112-114 | after a failure, `creating` is cleared so create may run again |
| Preview.Extension | src/app/components/preview/preview.component.ts:188-190 | the extension is '.' followed by the text after the last '.', or the whole name when it has no '.' |
| Preview.ExtensionAfterLastDot | src/app/components/preview/preview.component.ts:188-190 | for a '.' at k with no later '.', the extension is '.' plus the rest of the name after k |
| Preview.FileType | src/app/components/preview/preview.component.ts:192-210 | an image, PDF or video extension gives an image/, application/pdf or video/ type; audio gives audio/ unless it is also video; everything else gives octet-stream |
| Preview.VideoType | src/app/components/preview/preview.component.ts:212-220 | non-empty exactly for video files, and then equal to the MIME type |
| Preview.AudioType | src/app/components/preview/preview.component.ts:222-230 | non-empty exactly for audio files |
| Preview.FileIcon | src/app/components/preview/preview.component.ts:232-250 | each icon family corresponds to its file predicate; the default icon marks exactly the files with octet-stream type |
| Preview.CaseInsensitive | src/app/components/preview/preview.component.ts:169-250 | names that lower-case alike get the same predicates, types and icon |
| Preview.OggIsVideoAndAudio | src/app/components/preview/preview.component.ts:178-186 | '.ogg' counts as video and as audio; its MIME type and icon are the video ones |
| FileExplorer.SortEntries | src/app/components/file-explorer/file-explorer.component.ts:147-151 | the result is a permutation of the records, directories before files, and records of one kind in path order |
| FileExplorer.WalkIsRootWalk | src/app/components/file-explorer/file-explorer.component.ts:153-185 | the walk adds to the root only until it descends into a directory's children, which never reach the root |
| FileExplorer.DetachedNeverReachesRoot | src/app/components/file-explorer/file-explorer.component.ts:175-182 | once the cursor is a fresh object built from children, no later segment changes the root |
| FileExplorer.SlashesOnlyHaveNoParts | src/app/components/file-explorer/file-explorer.component.ts:154 | a path of only slashes has no segments |
| FileExplorer.AddEntryGrows | src/app/components/file-explorer/file-explorer.component.ts:162-173 | a record only appends new nodes under new names; the first node of a name is never replaced |
| FileExplorer.AddEntryFirstSegment | src/app/components/file-explorer/file-explorer.component.ts:153-185 | a record without segments adds nothing; otherwise its first segment names a root node unless it is an inherited property name |
| FileExplorer.BuildFileTreeShape | src/app/components/file-explorer/file-explorer.component.ts:143-188 | root names are distinct and never inherited names; directories have empty children; each path ends in its node's name; every record is represented by its first segment; no node has children |
| FileExplorer.FileNodeKeepsWalkAtRoot | src/app/components/file-explorer/file-explorer.component.ts:175-177 | below a file node the walk stays at the root, so 'a/b' after the file 'a' adds 'b' at the root |
| FileExplorer.OpenFile | src/app/components/file-explorer/file-explorer.component.ts:121-125 | a directory changes nothing; a file becomes the file service's current file |
| Storage.SaveProject | src/app/services/storage.service.ts:51-61 | the put replaces the project under its id and nothing else |
| Storage.SaveFile | src/app/services/storage.service.ts:102-116 | the put replaces the record under (project, path) with the current time and nothing else |
| Storage.DeleteFile | src/app/services/storage.service.ts:130-140 | the record under (project, path) is gone and nothing else changes |
| Storage.GetAllFiles | src/app/services/storage.service.ts:142-153 | exactly the stored records of the project |
| Storage.ClearAllFiles | src/app/services/storage.service.ts:174-193 | the project has no files left and other projects' files are untouched |
| Storage.DeleteProject | src/app/services/storage.service.ts:75-100 | the project and all its files are gone; other projects and their files are untouched |
| Storage.DeleteProjectIsClearThenDrop | src/app/services/storage.service.ts:75-100 | the cascade delete equals clearing the files and then dropping the project |
| Storage.SaveFilesLastWins | src/app/services/storage.service.ts:155-172 | after the batch, each path holds the last record given for it |
| Storage.SaveFilesKeepsOthers | src/app/services/storage.service.ts:155-172 | the batch leaves other projects and other paths untouched |
| Storage.WritesKeepWellKeyed | src/app/services/storage.service.ts:51-193 | every write keeps each record stored under its own key |
| Storage.SearchFiles | src/app/services/storage.service.ts:195-203 | the project's records whose lower-cased name, path or content contain the lower-cased query; an empty query gives all of them |
| Storage.SearchIgnoresQueryCase | src/app/services/storage.service.ts:197 | queries that lower-case alike give the same result |
| Storage.GetRecentFiles | src/app/services/storage.service.ts:205-227 | the walk returns a prefix of the newest-first order, at most `limit` long, of the project's records, stopping at `limit` or at the first foreign record |
| Storage.RecentFilesAreStoredNewestFirst | src/app/services/storage.service.ts:210-218 | over the store's recency order, the result holds stored records of the project, newest first |
| Storage.RecentAsWrittenIsPrefix | src/app/services/storage.service.ts:217 | the walk as written returns a prefix of the project's newest `limit` records |
| Storage.RecentAgreesOnSingleProject | src/app/services/storage.service.ts:217 | with no foreign record in the store, the walk as written returns the newest `limit` records |
| Server.CommandName | server/src/server.ts:108 | the program name is the base name, with '.cmd' appended exactly on win32 |
| Server.GeneratorCommand | server/src/server.ts:105-131 | 'angular' runs npx with the exact Angular CLI flags; 'react' runs create-react-app with the TypeScript template; any other template runs no generator |
| Server.RunCommand | server/src/server.ts:31-52 | the first event decides: resolved exactly when the child closes with code 0; any other code, including null, and a spawn error reject |
| Server.ServeProject | server/src/server.ts:209-223 | runs `npm start`; success exactly when the command closes with 0; otherwise a 500 |
| Server.BuildProject | server/src/server.ts:226-240 | runs `npm run build`; success exactly when the command closes with 0; otherwise a 500 |
| Server.GuardDifference | server/src/server.ts:162 | the string-prefix guard admits more than the directory guard exactly on paths that continue the project path's last segment |
| Server.CreationPlan | server/src/server.ts:93-141 | the creation steps are, in order, mkdir, the generator when there is one, writing project.json, and `npm install` |
| Server.CreateProject | server/src/server.ts:87-151 | the response is the new id with the metadata, carrying the two clock readings as createdAt and updatedAt, exactly when no step fails, and a 500 otherwise; no directory is ever removed |
| Server.CreateLeavesDirectory | server/src/server.ts:93-150 | once mkdir succeeds, the project directory remains after any later failure |
| Server.CreateWritesMetadata | server/src/server.ts:133-146 | a successful creation leaves the metadata in project.json |
| Server.UpdateFile | server/src/server.ts:154-183 | the 400 answers exactly the joined paths that do not start with the project path as strings, and changes nothing; an admitted path that hits a failing step gives a 500 |
| Server.UpdateFileIntended | server/src/server.ts:161-164 | the corrected handler: the 400 answers exactly the joined paths outside the project directory |
| Server.UpdateFileIntendedAgrees | server/src/server.ts:161-164 | the as-written and corrected handlers agree inside the project directory and differ exactly on paths that pass the string-prefix guard but lie outside the directory |
| Server.SiblingUpdateSucceeds | server/src/server.ts:161-170 | a sibling path such as "/p/a-x/f" under project "/p/a" is written by the handler as written, while the corrected one refuses it with 400 |
| Server.UpdateFileTouchesMetadata | server/src/server.ts:166-176 | a successful update wrote the file and then refreshed `updatedAt` in project.json, keeping its other fields |
| Server.ReadFile | server/src/server.ts:186-206 | the 400 answers exactly the joined paths that do not start with the project path as strings; otherwise a stored text is returned and a missing file gives a 500 |
| Server.ReadFileIntended | server/src/server.ts:193-196 | the corrected handler: the 400 answers exactly the joined paths outside the project directory |
| Server.ReadFileIntendedAgrees | server/src/server.ts:193-199 | the two read handlers agree inside the project directory; on a sibling path holding text the handler as written returns that text where the corrected one answers 400 |
| Server.ReadAfterUpdate | server/src/server.ts:154-206 | reading a file back after a successful update gives the text just written |
| Server.ListEntry | server/src/server.ts:246-271 | an excluded name gives null; a directory gets its recursively listed children; a file gets its size and time; the path is join(base, name) |
| Server.ListingOmitsExcluded | server/src/server.ts:250-252 | no listed entry at any depth is named 'project.json' or 'node_modules' |
| Server.ListingNames | server/src/server.ts:243-276 | at each level the listing names exactly the kept entries, in `readdir` order |

## Findings

| source | as written | input that shows it | evidently intended | confidence | as-written member | corrected member |
|---|---|---|---|---|---|---|
| server/src/server.ts:162 | `fullPath.startsWith(projectPath)` compares strings, so a sibling directory whose name extends the project id passes (the same guard is at line 194) | project path "/p/a", joined path "/p/a-x/f" | only the project directory and paths below it | not executed; needs a sibling name that extends the id | Server.SiblingUpdateSucceeds | Server.UpdateFileIntended |
| src/app/services/storage.service.ts:217 | the cursor stops at the first record of another project | records newest first `[b@2, a@1]`, project "a" | skip other projects' records and return the project's `limit` newest | not executed | Storage.RecentStopsAtForeignRecord | Storage.GetRecentFilesCorrected |

Both corrections are used by the model:

- `Server.UpdateFile` and `Server.ReadFile` are the handlers as written, guarded by `Server.GuardAsWritten`, the string-prefix test. `Server.SiblingPassesGuard` and `Server.SiblingUpdateSucceeds` exhibit the sibling path that gets through.
- `Server.UpdateFileIntended` and `Server.ReadFileIntended` guard with `Server.WithinProject`, which admits the project directory and what lies below it; `Server.WithinProjectSegments` shows that such a path has the project path's segments as its leading segments. `Server.GuardDifference` characterises exactly where the two guards differ.
- `Storage.GetRecentFilesCorrected` returns the project's newest records.
- `Storage.GetRecentFiles` is the walk as written. `Storage.RecentAsWrittenIsPrefix` and `Storage.RecentAgreesOnSingleProject` relate it to the corrected walk.

## Left out

- I/O is not modelled. That covers IndexedDB (opening the database and request errors), HttpClient, localStorage, Blob and object URLs, DomSanitizer, and `fs` and `child_process` beyond the small disk record and the event list. Each becomes a parameter: an outcome, a response, a failing-step index, or an ordering.
- Asynchronous interleaving is modelled only at the awaits of the runner and of the creation dialog. Every other method is one atomic transition, and RxJS emissions are not modelled.
- Node's `path.join` and `path.dirname` are parameters. Their normalisation is not modelled, so the guards are stated on the joined string.
- `toLowerCase` maps ASCII letters only. Full Unicode case mapping is not modelled.
- FileExplorer.SortEntries: `localeCompare` is replaced by lexicographic character order, and the stability of the sort is not proved.
- Strings are sequences of Unicode scalar values, while JavaScript strings are UTF-16 code units. The two differ for characters outside the Basic Multilingual Plane: lengths and indices count such a character once rather than twice, and `Strings.LexLe` orders them by code point, so they sort after U+E000–U+FFFF where code-unit order puts them before.
- Storage.SaveFile: the record is always filed under the `projectId` argument. In the source, `{projectId, ...file, updatedAt}` lets a `projectId` carried by the file object override the argument, and records read back by `getAllFiles` or `getRecentFiles` carry one, so such a record is stored under its own project's key.
- FileExplorer.BuildFileTree: `Object.values` lists integer-like keys (such as "1") first in numeric order. The model keeps insertion order.
- FileExplorer.FromChildren: assigning a child named `__proto__` would replace the prototype instead of adding a property. The model adds a property, which makes no difference here because built nodes never have children.
- `Models.Thrown` stands for thrown values: an Error is reduced to its message, and every other thrown value is the same.
- EditorConfig.UpdateConfig: an explicitly `undefined` field in the partial config overwrites the old value in JavaScript. The model treats it as absent. `tabSize` is an integer.
- The timestamps of `saveFile` and `saveFiles` are one `now` per call.
- Storage.GetAllFiles and Storage.SearchFiles return sets. The index order of the JavaScript arrays is not modelled.
- Storage.GetRecentFiles: the store's `updatedAt` index order is an input sequence, tied to the store by `Storage.RecencyOrder`. A fractional `limit` is not modelled.
- The project record's `config` and `logs` fields, and the log records' timestamps, are not modelled.
- The `ProjectService` constructor's `loadProject` runs without being awaited. `ProjectService.Construct` applies its outcome at once.
- The `getFile`, `updateFile`, `serveProject` and `buildProject` HTTP wrappers in `ProjectService` forward one call and hold no state, so they are not modelled.
- Server.CreateProject:
  - Whether a step throws comes from a failing-step index, not from the child's events. `Server.RunCommand` maps events to an outcome on its own.
  - The generator's and npm's effects on the disk are not modelled.
  - A missing `name` or `template` in the request body is not modelled.
  - The id is a fresh-id argument.
- Server.UpdateFile: `JSON.parse` and `JSON.stringify` are not modelled. `project.json` holds the metadata record itself. Refreshing it throws when the file holds text, so a request that writes `project.json` itself fails with a 500.
- Server.ReadFile: reading `project.json` returns its serialised form through a `stringify` parameter.
- The GET /project/:id handler (existence check, metadata read, listing merge) is not modelled beyond `Server.ListEntries`. The start-up `ensureProjectsDir`, CORS and the listener are not modelled either.
- Server.ListEntries: `readdir` results are an input tree. The `Promise.all` ordering keeps that order, and the timestamps are naturals.
- The presentation components (editor, console, pages), the webpack and API configuration, and the environment files hold no logic that is modelled.
