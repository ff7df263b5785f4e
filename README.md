# eco-cassa desktop shell and release script, modelled in Dafny

This project models the core logic of two parts of the eco-cassa repository:

- **The Electron main process** (`electron/main.js`):
  - The **update check bridge**. Its `check-for-updates` handler turns the auto-updater's events into one promise result. It uses a 15-second timeout and a `settled` flag, so the first outcome wins.
  - The **application shell**. It picks the content source and the preload script when a window is created, and tracks the single `mainWindow` reference across the `closed` and `activate` events.
- **The release publisher** (`create-github-release.js`). This command-line script:
  1. parses its flags;
  2. resolves the release descriptor from the flags, `package.json` and built-in defaults;
  3. finds the release for the tag `v<version>`, creating it on a 404;
  4. discovers assets in `dist/` when none are given;
  5. uploads each asset, replacing any remote asset with the same name.

Modules:

| file | module | models |
|---|---|---|
| `js.dfy` | `Js` | the JavaScript rules the code relies on: `undefined` as `None`, string truthiness and `\|\|`, `String(undefined)`, `startsWith`, `includes`, `path.join`/`path.basename` on `/`-separated paths |
| `update_bridge.dfy` | `UpdateBridge` | the settle-once state machine: the pure `Machine`/`Deliver`, the class `UpdateCheck` whose fields are the handler's shared closure variables, and `CheckForUpdates` |
| `app_shell.dfy` | `AppShell` | index/preload selection, and the class `Shell` holding `mainWindow` |
| `release_args.dfy` | `ReleaseArgs` | `parseArgs` as a loop, proved against the recursive specification `Parse` |
| `release_publisher.dfy` | `ReleasePublisher` | defaults, release lookup, autodiscovery, the upload loop and the whole run |

**How the environment is modelled.** The outside world is turned into parameters:

- **File system:** a set of paths that exist, and a directory listing (`None` when `dist/` is missing).
- **Update check:** the updater's behaviour is what `checkForUpdates()` throws synchronously, followed by a sequence of events; the timer's expiry is one event among them.
- **REST service:** each call returns a reply that is given as a parameter. The lookup returns `Found` or an error status. The creation returns `Created` or an error. Asset `k` of the loop gets the replies `env(k)` (listing ok, deletion ok, upload accepted or rejected).
- **Trace:** the model records every call made to the service. This makes "no network calls" and the order of list, delete and upload into provable statements.

## Model

| member | source | states |
|---|---|---|
| `UpdateBridge.ErrorMessage` | electron/main.js:152-157 | a nullish error gives "unknown"; otherwise the stack when it is a non-empty string, else the value's string form |
| `UpdateBridge.DeliverConsistent` | electron/main.js:133-169 | every event keeps an invocation pending-with-everything-registered or settled-with-nothing-registered; on a pending invocation any event settles it with that event's result, removes all listeners and clears the timer |
| `UpdateBridge.SettledIsFinal` | electron/main.js:140-165 | once settled, no sequence of later events changes anything: the handler resolves at most once |
| `UpdateBridge.FirstEventWins` | electron/main.js:140-169 | for every non-empty event sequence, the result is the first event's, and no listener or timer is left |
| `UpdateBridge.StartFailureWins` | electron/main.js:171-176 | a synchronous throw from starting the check settles it with that error, and all later events are ignored |
| `UpdateBridge.TimerForcesSettlement` | electron/main.js:159-165 | any event sequence that contains the timer's expiry leaves the invocation settled: the caller never waits forever |
| `UpdateBridge.UpdateCheck.constructor` | electron/main.js:131-176 | arms the timer, registers the three listeners and starts the check; the state equals `Start(startFailure)` |
| `UpdateBridge.UpdateCheck.Cleanup` | electron/main.js:133-138 | removes all three listeners and clears the timer, leaving `settled` and the result alone |
| `UpdateBridge.UpdateCheck.HandleAvailable` | electron/main.js:140-145 | when already settled, nothing changes; otherwise it settles with "available" and the info, with everything released |
| `UpdateBridge.UpdateCheck.HandleNotAvailable` | electron/main.js:146-151 | the same, with "not-available" |
| `UpdateBridge.UpdateCheck.HandleError` | electron/main.js:152-157 | the same, with "error" and `ErrorMessage` |
| `UpdateBridge.UpdateCheck.HandleTimeout` | electron/main.js:159-165 | the same, with "timeout" |
| `UpdateBridge.UpdateCheck.Dispatch` | electron/main.js:167-169 | an emitted event runs its one-shot listener only while it is registered; the new state is `Deliver` of the old one and stays consistent |
| `UpdateBridge.UpdateCheck.DispatchAll` | electron/main.js:140-169 | delivering events one by one matches the fold `DeliverAll` |
| `UpdateBridge.CheckForUpdates` | electron/main.js:130-178 | result by case: a start failure gives an error result; with no events the promise is still pending; otherwise the result matches the first event; a timer expiry anywhere guarantees a result |
| `AppShell.PreloadFor` | electron/main.js:13-15 | the preload path is used if and only if the file exists |
| `AppShell.IndexPath` | electron/main.js:17-31 | development uses the dev-server URL. In production the primary bundle is used when it exists. The fallback is used only when the primary is missing and the fallback exists. When both are missing the primary is kept. When either exists, the chosen path exists |
| `AppShell.Shell.constructor` | electron/main.js:10 | `mainWindow` starts out unset, neither `null` nor a window |
| `AppShell.Shell.CreateWindow` | electron/main.js:12-55 | the stored window loads the selected index (a plain URL in development, a file URL in production), carries the guarded preload, and opens dev tools only in development |
| `AppShell.Shell.OnReady` | electron/main.js:63-64 | the window is created; an automatic update check starts exactly when the app is packaged (lines 120-123) |
| `AppShell.Shell.OnClosed` | electron/main.js:57-59 | closing the window sets the reference to null |
| `AppShell.Shell.OnActivate` | electron/main.js:189-191 | a window is created only when the reference is null; an open window or a never-set reference is left as it was |
| `AppShell.CloseThenActivate` | electron/main.js:189-191 | an activation before launch creates nothing; after a close, activation opens exactly the window `createWindow` builds for the files present at that moment (index, preload and dev tools in every mode) |
| `ReleaseArgs.FlagOf` | create-github-release.js:19-22 | exactly the four tokens `--owner`, `--repo`, `--notes`, `--title` name a value flag |
| `ReleaseArgs.Set` | create-github-release.js:19-22 | storing a flag's value changes that field only, and never the asset list |
| `ReleaseArgs.AssetRun` | create-github-release.js:26-28 | counts the longest leading run of tokens that do not start with "--" |
| `ReleaseArgs.CollectAssets` | create-github-release.js:23-29 | the `--assets` branch appends the run of non-flag tokens in order, then steps back so the next flag is processed as usual |
| `ReleaseArgs.ParseArgs` | create-github-release.js:14-35 | the imperative loop, including the `++i` read past the end and the step back after the asset run, computes exactly `Parse(argv, NoArgs)` |
| `ReleaseArgs.AssetsAbsent` | create-github-release.js:16 | without an `--assets` token the asset list is never touched (empty from the start) |
| `ReleaseArgs.AssetsCollected` | create-github-release.js:23-29 | `--assets` followed by non-flag tokens and then a flag (or the end) appends exactly those tokens, in order |
| `ReleaseArgs.ValueFlagTakesNext` | create-github-release.js:19-22 | a value flag takes the next token, even one that starts with "--" |
| `ReleaseArgs.ValueFlagAtEnd` | create-github-release.js:19-22 | a value flag in last position stores `undefined` |
| `ReleaseArgs.ValueKept` | create-github-release.js:17-33 | tokens that never name a flag leave that flag's value as it was, so the last occurrence wins |
| `ReleaseArgs.UnknownIgnored` | create-github-release.js:30-32 | an unrecognised token is skipped without effect |
| `Js.Or` | create-github-release.js:43-48 | `a \|\| b` is `a` when `a` is a non-empty string, else `b`; the result is truthy if and only if one of them is |
| `Js.IncludesIffOccurs` | create-github-release.js:84 | `includes` holds if and only if the substring occurs at some position |
| `Js.BaseName` | create-github-release.js:101 | the base name contains no '/' and is a suffix of the path |
| `Js.BaseNameIsLastSegment` | create-github-release.js:101 | the base name is the whole last segment: all of the path when it has no '/', else everything after its last '/' |
| `Js.BaseNameOfJoin` | create-github-release.js:85 | the base name of a file joined onto a directory is the file name |
| `ReleasePublisher.FirstTruthy` | create-github-release.js:43-46 | the first non-empty of the flag and the manifest value, else the fallback; the result is never empty |
| `ReleasePublisher.Resolve` | create-github-release.js:41-46 | the tag is "v" + `String(version)`. Owner and repo come from the flag, else the first publish target, else "smeup" / "signmeup-client-electron-binaries". Notes default to "Release " + tag and the title to the tag. Every field is non-empty |
| `ReleasePublisher.EnsureRelease` | create-github-release.js:53-75 | the lookup by tag is always the first call. A found release is used as is. A 404 creates a non-draft, non-prerelease release named by the title, with the notes as body, and a failed creation aborts. Any other lookup error aborts with no further call |
| `ReleasePublisher.Candidates` | create-github-release.js:84 | a listed file is kept if and only if its name contains the version or it is `latest.yml`; nothing else is added |
| `ReleasePublisher.CandidatesAppend` | create-github-release.js:84 | the filter keeps the listing order: filtering a concatenation concatenates the filtered parts |
| `ReleasePublisher.CandidatesExample` | create-github-release.js:78-86 | for version 1.0.2, `latest.yml` and `app.Setup.1.0.2.exe` are kept and `unrelated.txt` is dropped |
| `ReleasePublisher.HasCredential` | create-github-release.js:48-49 | a credential is present if and only if `GITHUB_TOKEN` or `GH_TOKEN` is a non-empty string |
| `ReleasePublisher.AssetList` | create-github-release.js:77-87 | explicit assets win. Otherwise a missing `dist/` gives nothing, and an existing one gives the joined paths of the kept files, in directory-listing order and without repeats or additions |
| `ReleasePublisher.FindByName` | create-github-release.js:105 | the index of the first remote asset with the name, or none if and only if no asset has it |
| `ReleasePublisher.UploadOne` | create-github-release.js:97-125 | one iteration: a missing local file leaves everything unchanged and makes no call; for an existing file the run fails exactly when the upload is rejected, with that path as the failure |
| `ReleasePublisher.UploadOneEffects` | create-github-release.js:103-125 | for an existing file the calls are the listing, then the deletion of the same-named asset (made exactly when the listing worked and found one), then the upload; a failed listing or deletion never ends the run; an accepted upload appends the new asset after the deletion |
| `ReleasePublisher.UploadAsset` | create-github-release.js:97-125 | the imperative iteration body computes exactly `UploadOne` |
| `ReleasePublisher.UploadAll` | create-github-release.js:96-126 | the `for...of` loop with `continue` for missing files and an abort on a rejected upload computes exactly `Uploads` |
| `ReleasePublisher.FailureIsFinal` | create-github-release.js:116-124 | once an upload has failed, the remaining assets are not attempted |
| `ReleasePublisher.UploadsStopsOnFailure` | create-github-release.js:96-126 | a failed run stopped at an existing asset whose upload was rejected, and the uploads attempted are exactly those of the existing files up to and including it, in order |
| `ReleasePublisher.OthersUntouched` | create-github-release.js:102-124 | whatever happens to one asset, every remote asset with another name keeps its place and order |
| `ReleasePublisher.ReplaceLeavesOneCopy` | create-github-release.js:101-124 | with unique names, a working listing, a working deletion of any duplicate and an accepted upload, exactly one asset with the name remains (the new one) and names stay unique |
| `ReleasePublisher.ReplaceFirst` | create-github-release.js:103-124 | when listing and deletion work and the first remote asset has the file's name, an accepted upload makes the calls list, delete that asset, upload, and the remote list becomes the rest followed by the new asset |
| `ReleasePublisher.ReuploadManifestExample` | create-github-release.js:101-124 | re-uploading `dist/latest.yml` lists, deletes the old `latest.yml`, uploads, and leaves exactly one `latest.yml` |
| `ReleasePublisher.UploadsInOrder` | create-github-release.js:96-126 | when the loop does not fail, the uploaded names are the base names of the existing local files, in asset-list order |
| `ReleasePublisher.ExitCode` | create-github-release.js:89-92 | exit status 0 for success and for nothing to upload, 1 for every failure (lines 129-132) |
| `ReleasePublisher.Publish` | create-github-release.js:37-133 | an unreadable `package.json` or a missing token fails before any call to the service. Otherwise the outcome, the call trace and the final remote assets are those of `EnsureRelease`, then `AssetList`, then `Uploads`. An empty asset list ends successfully after the release was found or created |

## Left out

- `electron/preload.js`, the renderer-facing bridge with its channel allow-list, is not part of this model.
- The auto-updater forwarding listeners and the error dialog (electron/main.js:66-118) are left out. They only relay events to the renderer. The dialog detail uses the same expression that `ErrorMessage` models.
- The `get-app-version` handler (electron/main.js:181-183) and the `window-all-closed` quit rule (electron/main.js:185-187) are left out. They are single calls into Electron with no logic of their own.
- Logging, window dimensions, icons and the `webPreferences` isolation flags are left out. They are fixed configuration with no branches.
- The 15-second timer is not modelled as time. Its expiry is an event in the input sequence, so "within 15 seconds" becomes "before the timer event".
- `CheckForUpdates`: a rejected promise returned by the updater's `checkForUpdates()` is not modelled. Only a synchronous throw and emitted events are, because the handler's `try` catches only synchronous throws.
- `CheckForUpdates`: each invocation is modelled in isolation. Two overlapping invocations that share the updater, where one invocation's events reach the other's listeners, are not modelled.
- `ErrorMessage`: a thrown value is modelled by its `stack` (a string or absent) and its string form. Non-string stacks and throwing getters are not modelled.
- `AppShell.CreateWindow`: paths are opaque strings. `path.join(__dirname, …)` and `pathToFileURL` are not computed; the file URL is the `FileUrlOf` constructor.
- Loading `.env` (dotenv) and the process environment are parameters. JSON parsing of `package.json` is reduced to "readable manifest or not". Non-string `version` fields and a `publish` that is not an array are not modelled.
- The HTTP transport, authentication, the `upload_url` template edit, request headers and asset contents (`readFileSync`) are left out. Each call is a recorded `Call` with a reply supplied by the caller. An asset that exists at the check but cannot be read is not modelled.
- `EnsureRelease`: a lookup error without an HTTP status is modelled as a non-404 status. Both are rethrown.
- `EnsureRelease`: a created release's asset list is modelled as empty, and its upload URL is not modelled.
- `UploadOne`, `ReplaceLeavesOneCopy`: the listing reply is taken as the release's complete asset list. The script asks for the first page only (30 assets by default, with no `per_page` and no paging). A same-named asset beyond the first page is therefore not found and not deleted, and the service then refuses the duplicate upload, so such a run fails with exit status 1. The model does not capture that case.
- Deleting an asset by its id is modelled as removing the entry the search found. Asset ids are assumed to identify remote assets.
- `ReplaceLeavesOneCopy` requires the remote names to be unique beforehand. The hosting service keeps names unique within a release, and the script relies on that when it deletes only the first match.
- `Js.BaseName`: only '/' is a separator. Windows separators and trailing-slash stripping in `path.basename` are not modelled.
- Console output and `process.exit` are reduced to the `Outcome` and `ExitCode`.
