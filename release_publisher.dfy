/** The release script's run (create-github-release.js) once its environment
    is given as values: the manifest read from package.json, the two token
    variables, the hosting service's replies (release lookup, release
    creation, and for each asset the outcome of listing, deleting and
    uploading), the listing of `dist/` and the set of local files that exist.
    The remote calls the run makes are recorded, in order, as a trace. */
module ReleasePublisher {
  import opened Js
  import opened ReleaseArgs

  const DefaultOwner := "smeup"
  const DefaultRepo := "signmeup-client-electron-binaries"
  /** The update manifest that autodiscovery always keeps. */
  const UpdateManifest := "latest.yml"
  const NotFound := 404

  // ---------------------------------------------------------------------------
  // Defaults

  /** One entry of `build.publish` in package.json. */
  datatype PublishTarget = PublishTarget(owner: Option<string>, repo: Option<string>)
  datatype BuildConfig = BuildConfig(publish: Option<seq<PublishTarget>>)
  /** The parts of package.json the script reads. */
  datatype Manifest = Manifest(version: Option<string>, build: Option<BuildConfig>)

  /** The first publish target of the build configuration, when the manifest
      has one (an empty target list yields none). */
  function FirstTarget(pkg: Manifest): Option<PublishTarget> {
    if pkg.build.Some? && pkg.build.value.publish.Some? && |pkg.build.value.publish.value| > 0
    then Some(pkg.build.value.publish.value[0])
    else None
  }

  function ManifestOwner(pkg: Manifest): Option<string> {
    if FirstTarget(pkg).Some? then FirstTarget(pkg).value.owner else None
  }

  function ManifestRepo(pkg: Manifest): Option<string> {
    if FirstTarget(pkg).Some? then FirstTarget(pkg).value.repo else None
  }

  /** The release the run targets. */
  datatype Descriptor = Descriptor(version: string, tag: string, owner: string, repo: string,
                                   notes: string, title: string)

  /** The first truthy value of `a || b || fallback`. */
  function FirstTruthy(a: Option<string>, b: Option<string>, fallback: string): (r: string)
    requires fallback != ""
    ensures Truthy(a) ==> r == a.value
    ensures !Truthy(a) && Truthy(b) ==> r == b.value
    ensures !Truthy(a) && !Truthy(b) ==> r == fallback
    ensures r != ""
  {
    var v := Or(a, Or(b, Some(fallback)));
    v.value
  }

  /** Default resolution: the tag is "v" followed by the version; owner and
      repo come from the arguments, else the first publish target, else the
      built-in names; notes default to "Release <tag>", the title to the tag. */
  function Resolve(args: Args, pkg: Manifest): (d: Descriptor)
    ensures d.version == Str(pkg.version) && d.tag == "v" + d.version
    ensures d.owner == FirstTruthy(args.owner, ManifestOwner(pkg), DefaultOwner)
    ensures d.repo == FirstTruthy(args.repo, ManifestRepo(pkg), DefaultRepo)
    ensures d.notes == (if Truthy(args.notes) then args.notes.value else "Release " + d.tag)
    ensures d.title == (if Truthy(args.title) then args.title.value else d.tag)
    ensures d.owner != "" && d.repo != "" && d.notes != "" && d.title != "" && StartsWith(d.tag, "v")
  {
    var version := Str(pkg.version);
    var tag := "v" + version;
    Descriptor(version, tag,
               FirstTruthy(args.owner, ManifestOwner(pkg), DefaultOwner),
               FirstTruthy(args.repo, ManifestRepo(pkg), DefaultRepo),
               FirstTruthy(args.notes, None, "Release " + tag),
               FirstTruthy(args.title, None, tag))
  }

  /** One of the two token environment variables holds a non-empty value. */
  function HasCredential(githubToken: Option<string>, ghToken: Option<string>): (r: bool)
    ensures r <==> Truthy(githubToken) || Truthy(ghToken)
  {
    Truthy(Or(githubToken, ghToken))
  }

  // ---------------------------------------------------------------------------
  // The hosting service

  datatype RemoteAsset = RemoteAsset(id: nat, name: string)

  datatype Release = Release(id: nat, tagName: string, name: string, body: string,
                             draft: bool, prerelease: bool, assets: seq<RemoteAsset>)

  datatype LookupReply = Found(release: Release) | LookupError(status: int)
  datatype CreateReply = Created(id: nat) | CreateError
  datatype UploadReply = Accepted(id: nat) | Rejected
  /** How the service answers the calls made for one asset. */
  datatype AssetCalls = AssetCalls(listOk: bool, deleteOk: bool, upload: UploadReply)

  /** A call to the service, as recorded in the trace. */
  datatype Call =
    | GetReleaseByTag(owner: string, repo: string, tag: string)
    | CreateRelease(owner: string, repo: string, tagName: string, name: string, body: string,
                    draft: bool, prerelease: bool)
    | ListReleaseAssets(releaseId: nat)
    | DeleteReleaseAsset(assetId: nat)
    | UploadReleaseAsset(name: string)

  datatype Failure =
    | UnreadableManifest
    | MissingCredential
    | LookupFailed(status: int)
    | CreateFailed
    | UploadFailed(path: string)

  /** The release the run uploads to, with the calls it took, or the failure. */
  datatype ReleaseStep = Ready(release: Release, calls: seq<Call>) | Aborted(failure: Failure, calls: seq<Call>)

  /** Release lookup: an existing release is used; a 404 creates a published
      (non-draft, non-prerelease) release with no assets; any other lookup
      error, or a failed creation, ends the run. */
  function EnsureRelease(d: Descriptor, lookup: LookupReply, creation: CreateReply): (r: ReleaseStep)
    ensures |r.calls| >= 1 && r.calls[0] == GetReleaseByTag(d.owner, d.repo, d.tag)
    ensures lookup.Found? ==> r == Ready(lookup.release, [GetReleaseByTag(d.owner, d.repo, d.tag)])
    ensures lookup.LookupError? && lookup.status != NotFound ==>
      r.Aborted? && r.failure == LookupFailed(lookup.status) && |r.calls| == 1
    ensures lookup.LookupError? && lookup.status == NotFound ==>
      |r.calls| == 2 && r.calls[1] == CreateRelease(d.owner, d.repo, d.tag, d.title, d.notes, false, false)
      && (creation.Created? ==> r == Ready(Release(creation.id, d.tag, d.title, d.notes, false, false, []), r.calls))
      && (creation.CreateError? ==> r.Aborted? && r.failure == CreateFailed)
  {
    var get := GetReleaseByTag(d.owner, d.repo, d.tag);
    match lookup
    case Found(release) => Ready(release, [get])
    case LookupError(status) =>
      if status == NotFound then
        var create := CreateRelease(d.owner, d.repo, d.tag, d.title, d.notes, false, false);
        match creation
        case Created(id) => Ready(Release(id, d.tag, d.title, d.notes, false, false, []), [get, create])
        case CreateError => Aborted(CreateFailed, [get, create])
      else Aborted(LookupFailed(status), [get])
  }

  // ---------------------------------------------------------------------------
  // Autodiscovery

  /** The filter of autodiscovery: the name contains the version or is the update manifest. */
  predicate Selected(file: string, version: string) {
    Includes(file, version) || file == UpdateManifest
  }

  /** The directory entries autodiscovery keeps, in listing order. */
  function Candidates(files: seq<string>, version: string): (r: seq<string>)
    ensures forall f :: f in r <==> f in files && Selected(f, version)
    ensures |r| <= |files|
    decreases |files|
  {
    if files == [] then []
    else (if Selected(files[0], version) then [files[0]] else []) + Candidates(files[1..], version)
  }

  /** The filter keeps directory order: it distributes over concatenation. */
  lemma {:induction false} CandidatesAppend(xs: seq<string>, ys: seq<string>, version: string)
    ensures Candidates(xs + ys, version) == Candidates(xs, version) + Candidates(ys, version)
    decreases |xs|
  {
    if xs != [] {
      assert (xs + ys)[0] == xs[0] && (xs + ys)[1..] == xs[1..] + ys;
      CandidatesAppend(xs[1..], ys, version);
    } else {
      assert xs + ys == ys;
    }
  }

  // One worked example of autodiscovery: `CandidatesExample` states it, and
  // the lemmas after it (down to `IncludesNeedsFirstChar`) are its steps.

  /** A `dist/` holding the update manifest, a build of 1.0.2 and an unrelated
      file yields exactly the first two, in that order. */
  lemma CandidatesExample()
    ensures Candidates(["latest.yml", "app.Setup.1.0.2.exe", "unrelated.txt"], "1.0.2")
         == ["latest.yml", "app.Setup.1.0.2.exe"]
  {
    BuildSelected();
    OtherNotSelected();
    CandidatesKeepFirstTwo(UpdateManifest, "app.Setup.1.0.2.exe", "unrelated.txt", "1.0.2");
  }

  /** Step: three names of which the first two are selected and the third is not. */
  lemma CandidatesKeepFirstTwo(a: string, b: string, c: string, version: string)
    requires Selected(a, version) && Selected(b, version) && !Selected(c, version)
    ensures Candidates([a, b, c], version) == [a, b]
  {
    CandidatesCons(c, [], version);
    assert [b, c] == [b] + [c];
    CandidatesCons(b, [c], version);
    assert [a, b, c] == [a] + [b, c];
    CandidatesCons(a, [b, c], version);
  }

  /** Step: the filter on a list with a first element. */
  lemma CandidatesCons(f: string, rest: seq<string>, version: string)
    ensures Candidates([f] + rest, version) == (if Selected(f, version) then [f] else []) + Candidates(rest, version)
  {
    assert ([f] + rest)[1..] == rest;
  }

  /** Step: the build's name contains the version. */
  lemma BuildSelected()
    ensures Selected("app.Setup.1.0.2.exe", "1.0.2")
  {
    var s := "app.Setup.1.0.2.exe";
    assert s[10..] == "1.0.2.exe";
    assert StartsWith(s[10..], "1.0.2");
    IncludesFrom(s, "1.0.2", 10);
  }

  /** Step: the unrelated name neither contains the version nor is the manifest. */
  lemma OtherNotSelected()
    ensures !Selected("unrelated.txt", "1.0.2")
  {
    IncludesNeedsFirstChar("unrelated.txt", "1.0.2");
  }

  /** `s` includes `sub` when a suffix of `s` starts with it. */
  lemma {:induction false} IncludesFrom(s: string, sub: string, i: nat)
    requires i <= |s| && StartsWith(s[i..], sub)
    ensures Includes(s, sub)
    decreases i
  {
    if i > 0 {
      assert s[1..][i - 1..] == s[i..];
      IncludesFrom(s[1..], sub, i - 1);
    }
  }

  /** A non-empty `sub` whose first character never occurs in `s` is not included. */
  lemma {:induction false} IncludesNeedsFirstChar(s: string, sub: string)
    requires sub != [] && sub[0] !in s
    ensures !Includes(s, sub)
    decreases |s|
  {
    if |s| > 0 {
      assert forall c :: c in s[1..] ==> c in s;
      IncludesNeedsFirstChar(s[1..], sub);
    }
  }

  /** Each kept name joined onto the distribution directory. */
  function InDir(dist: string, names: seq<string>): (r: seq<string>)
    ensures |r| == |names|
    ensures forall i :: 0 <= i < |names| ==> r[i] == Join(dist, names[i])
  {
    seq(|names|, i requires 0 <= i < |names| => Join(dist, names[i]))
  }

  /** The asset list: the explicit `--assets` if there are any, else the
      candidates of `dist/` when that directory exists, else nothing. */
  function AssetList(explicit: seq<string>, version: string, dist: string, listing: Option<seq<string>>): (r: seq<string>)
    ensures explicit != [] ==> r == explicit
    ensures explicit == [] && listing.None? ==> r == []
    ensures explicit == [] && listing.Some? ==> r == InDir(dist, Candidates(listing.value, version))
    ensures explicit == [] && listing.Some? ==>
      forall p :: p in r <==> exists f :: f in listing.value && Selected(f, version) && p == Join(dist, f)
  {
    if explicit != [] then explicit
    else if listing.None? then []
    else
      var c := Candidates(listing.value, version);
      var r := InDir(dist, c);
      assert forall p :: p in r ==> exists f :: f in c && p == Join(dist, f) by {
        forall p | p in r ensures exists f :: f in c && p == Join(dist, f) {
          var i :| 0 <= i < |r| && r[i] == p;
          assert c[i] in c;
        }
      }
      assert forall f :: f in c ==> Join(dist, f) in r by {
        forall f | f in c ensures Join(dist, f) in r {
          var i :| 0 <= i < |c| && c[i] == f;
          assert r[i] == Join(dist, f);
        }
      }
      r
  }

  // A worked example of one replacing upload: `ReuploadManifestExample` states
  // it, and `ReplaceFirst` and `ManifestNamedOnce` after it are its steps.

  /** Re-uploading `dist/latest.yml` to a release that already carries a
      `latest.yml`: the listing finds it, it is deleted, the new file is
      uploaded, and exactly one `latest.yml` remains. */
  lemma ReuploadManifestExample()
    ensures var path := Join("dist", UpdateManifest);
      var p := Progress([RemoteAsset(7, UpdateManifest), RemoteAsset(8, "app.exe")], [], None);
      var q := UploadOne(p, 1, path, {path}, AssetCalls(true, true, Accepted(9)));
      && q.failure.None?
      && q.calls == [ListReleaseAssets(1), DeleteReleaseAsset(7), UploadReleaseAsset(UpdateManifest)]
      && q.remote == [RemoteAsset(8, "app.exe"), RemoteAsset(9, UpdateManifest)]
      && Named(q.remote, UpdateManifest) == [RemoteAsset(9, UpdateManifest)]
  {
    var path := Join("dist", UpdateManifest);
    var p := Progress([RemoteAsset(7, UpdateManifest), RemoteAsset(8, "app.exe")], [], None);
    BaseNameOfJoin("dist", UpdateManifest);
    ReplaceFirst(p, 1, path, {path}, AssetCalls(true, true, Accepted(9)));
    assert p.remote[1..] == [RemoteAsset(8, "app.exe")];
    ManifestNamedOnce();
  }

  /** Step: an accepted upload whose name heads the remote list, with listing and
      deletion working, replaces that head by the new asset at the end. */
  lemma ReplaceFirst(p: Progress, releaseId: nat, path: string, local: set<string>, c: AssetCalls)
    requires path in local && c.listOk && c.deleteOk && c.upload.Accepted?
    requires p.remote != [] && p.remote[0].name == BaseName(path)
    ensures var q := UploadOne(p, releaseId, path, local, c);
      && q.failure.None?
      && q.calls == p.calls + [ListReleaseAssets(releaseId), DeleteReleaseAsset(p.remote[0].id), UploadReleaseAsset(BaseName(path))]
      && q.remote == p.remote[1..] + [RemoteAsset(c.upload.id, BaseName(path))]
  {
    var name := BaseName(path);
    var head := p.remote[0];
    assert FindByName(p.remote, name) == Some(0);
    var dup := DuplicateId(p.remote, name, c);
    assert dup == Some(head.id);
    assert AssetTrace(releaseId, dup, name)
        == [ListReleaseAssets(releaseId), DeleteReleaseAsset(head.id), UploadReleaseAsset(name)];
    assert AfterDelete(p.remote, name, c) == p.remote[1..] by {
      assert RemoveAt(p.remote, 0) == p.remote[1..];
    }
  }

  /** Step: after the replacement the manifest appears exactly once. */
  lemma ManifestNamedOnce()
    ensures Named([RemoteAsset(8, "app.exe"), RemoteAsset(9, UpdateManifest)], UpdateManifest)
         == [RemoteAsset(9, UpdateManifest)]
  {
    var after := [RemoteAsset(8, "app.exe"), RemoteAsset(9, UpdateManifest)];
    var last := [RemoteAsset(9, UpdateManifest)];
    assert last[1..] == [] && Named(last, UpdateManifest) == last;
    assert after[0].name != UpdateManifest by {
      assert after[0].name[0] != UpdateManifest[0];
    }
    assert after[1..] == last;
  }

  // ---------------------------------------------------------------------------
  // The upload loop

  /** The position of the first remote asset with the given name. */
  function FindByName(remote: seq<RemoteAsset>, name: string): (r: Option<nat>)
    ensures r.Some? ==>
      r.value < |remote| && remote[r.value].name == name && forall j :: 0 <= j < r.value ==> remote[j].name != name
    ensures r.None? ==> forall j :: 0 <= j < |remote| ==> remote[j].name != name
    decreases |remote|
  {
    if remote == [] then None
    else if remote[0].name == name then Some(0)
    else
      var rest := FindByName(remote[1..], name);
      if rest.Some? then Some(rest.value + 1) else None
  }

  /** The remote list without the entry at `k` (the asset deleted by its id). */
  function RemoveAt(remote: seq<RemoteAsset>, k: nat): seq<RemoteAsset>
    requires k < |remote|
  {
    remote[..k] + remote[k + 1..]
  }

  /** The state the loop carries: the release's remote assets, the calls made
      so far, and the failure that ended the loop, if any. */
  datatype Progress = Progress(remote: seq<RemoteAsset>, calls: seq<Call>, failure: Option<Failure>)

  /** The calls one uploaded asset makes: list, delete the duplicate found (if any), upload. */
  function AssetTrace(releaseId: nat, duplicate: Option<nat>, name: string): seq<Call> {
    if duplicate.Some?
    then [ListReleaseAssets(releaseId), DeleteReleaseAsset(duplicate.value), UploadReleaseAsset(name)]
    else [ListReleaseAssets(releaseId), UploadReleaseAsset(name)]
  }

  /** The id of the same-named asset the listing finds, if the listing works and finds one. */
  function DuplicateId(remote: seq<RemoteAsset>, name: string, c: AssetCalls): Option<nat> {
    if c.listOk && FindByName(remote, name).Some? then Some(remote[FindByName(remote, name).value].id) else None
  }

  /** The remote list after the best-effort deletion of the same-named asset. */
  function AfterDelete(remote: seq<RemoteAsset>, name: string, c: AssetCalls): seq<RemoteAsset> {
    if c.listOk && c.deleteOk && FindByName(remote, name).Some? then RemoveAt(remote, FindByName(remote, name).value)
    else remote
  }

  /** One iteration for `path`: a missing local file is skipped; otherwise the
      assets are listed, a same-named asset is deleted (a failed listing or
      deletion is ignored), and the file is uploaded; a rejected upload ends
      the run. */
  function UploadOne(p: Progress, releaseId: nat, path: string, local: set<string>, c: AssetCalls): (q: Progress)
    ensures path !in local ==> q == p
    ensures path in local ==> (q.failure.Some? <==> c.upload.Rejected?)
    ensures path in local && c.upload.Rejected? ==> q.failure == Some(UploadFailed(path))
  {
    if path !in local then p
    else
      var name := BaseName(path);
      var remote := AfterDelete(p.remote, name, c);
      var calls := p.calls + AssetTrace(releaseId, DuplicateId(p.remote, name, c), name);
      match c.upload
      case Accepted(id) => Progress(remote + [RemoteAsset(id, name)], calls, None)
      case Rejected => Progress(remote, calls, Some(UploadFailed(path)))
  }

  /** The loop over `assets`, the `k`-th of which meets the service replies `env(k)`. */
  function Uploads(p: Progress, releaseId: nat, assets: seq<string>, local: set<string>,
                   env: nat -> AssetCalls, k: nat): Progress
    decreases |assets|
  {
    if assets == [] || p.failure.Some? then p
    else Uploads(UploadOne(p, releaseId, assets[0], local, env(k)), releaseId, assets[1..], local, env, k + 1)
  }

  lemma UploadsAt(p: Progress, releaseId: nat, assets: seq<string>, local: set<string>,
                  env: nat -> AssetCalls, i: nat)
    requires i < |assets| && p.failure.None?
    ensures Uploads(p, releaseId, assets[i..], local, env, i)
         == Uploads(UploadOne(p, releaseId, assets[i], local, env(i)), releaseId, assets[i + 1..], local, env, i + 1)
  {
    assert assets[i..][1..] == assets[i + 1..];
  }

  /** The body of the loop for one asset: a missing local file is skipped;
      otherwise the assets are listed, a same-named asset is deleted (a failed
      listing or deletion is ignored) and the file is uploaded. */
  method UploadAsset(p: Progress, releaseId: nat, path: string, local: set<string>, c: AssetCalls)
    returns (q: Progress)
    ensures q == UploadOne(p, releaseId, path, local, c)
  {
    if path !in local {
      // a missing local file is skipped
      return p;
    }
    var name := BaseName(path);
    var remote := p.remote;
    var made := [ListReleaseAssets(releaseId)];
    ghost var duplicate: Option<nat> := None;
    if c.listOk {
      var dup := FindByName(remote, name);
      if dup.Some? {
        duplicate := Some(remote[dup.value].id);
        made := made + [DeleteReleaseAsset(remote[dup.value].id)];
        if c.deleteOk {
          remote := RemoveAt(remote, dup.value);
        }
      }
    }
    made := made + [UploadReleaseAsset(name)];
    assert duplicate == DuplicateId(p.remote, name, c);
    assert made == AssetTrace(releaseId, duplicate, name);
    assert remote == AfterDelete(p.remote, name, c);
    var calls := p.calls + made;
    match c.upload {
      case Rejected =>
        q := Progress(remote, calls, Some(UploadFailed(path)));
      case Accepted(id) =>
        q := Progress(remote + [RemoteAsset(id, name)], calls, None);
    }
  }

  /** The loop over the asset list; a rejected upload ends it. */
  method UploadAll(remote0: seq<RemoteAsset>, releaseId: nat, assets: seq<string>, local: set<string>,
                   env: nat -> AssetCalls)
    returns (p: Progress)
    ensures p == Uploads(Progress(remote0, [], None), releaseId, assets, local, env, 0)
  {
    p := Progress(remote0, [], None);
    var i := 0;
    while i < |assets|
      invariant 0 <= i <= |assets|
      invariant p.failure.None?
      invariant Uploads(p, releaseId, assets[i..], local, env, i)
             == Uploads(Progress(remote0, [], None), releaseId, assets, local, env, 0)
    {
      UploadsAt(p, releaseId, assets, local, env, i);
      var q := UploadAsset(p, releaseId, assets[i], local, env(i));
      if q.failure.Some? {
        return q;
      }
      p := q;
      i := i + 1;
    }
    assert assets[i..] == [];
  }

  /** What one iteration does to an existing file: the calls are the listing,
      the deletion of the found duplicate (before the upload) and the upload;
      a failed listing or deletion never ends the run, only a rejected upload
      does; an accepted upload appends the new asset. */
  lemma UploadOneEffects(p: Progress, releaseId: nat, path: string, local: set<string>, c: AssetCalls)
    requires path in local
    ensures var name := BaseName(path);
      var q := UploadOne(p, releaseId, path, local, c);
      var dup := DuplicateId(p.remote, name, c);
      && q.calls == p.calls + AssetTrace(releaseId, dup, name)
      && q.calls[|p.calls|] == ListReleaseAssets(releaseId)
      && q.calls[|q.calls| - 1] == UploadReleaseAsset(name)
      && (dup.Some? <==> c.listOk && exists j :: 0 <= j < |p.remote| && p.remote[j].name == name)
      && (dup.Some? ==> |q.calls| == |p.calls| + 3 && q.calls[|p.calls| + 1] == DeleteReleaseAsset(dup.value))
      && (q.failure.Some? <==> c.upload.Rejected?)
      && (c.upload.Accepted? ==> q.remote == AfterDelete(p.remote, name, c) + [RemoteAsset(c.upload.id, name)])
      && (c.upload.Rejected? ==> q.remote == AfterDelete(p.remote, name, c))
  {
  }

  // Properties of one iteration

  /** The entries with a given name, in order. */
  function Named(remote: seq<RemoteAsset>, name: string): seq<RemoteAsset>
    decreases |remote|
  {
    if remote == [] then []
    else (if remote[0].name == name then [remote[0]] else []) + Named(remote[1..], name)
  }

  /** The entries with any other name, in order. */
  function Unnamed(remote: seq<RemoteAsset>, name: string): seq<RemoteAsset>
    decreases |remote|
  {
    if remote == [] then []
    else (if remote[0].name != name then [remote[0]] else []) + Unnamed(remote[1..], name)
  }

  /** No two remote assets share a name (the service refuses duplicates). */
  predicate UniqueNames(remote: seq<RemoteAsset>) {
    forall i, j :: 0 <= i < j < |remote| ==> remote[i].name != remote[j].name
  }

  lemma {:induction false} NamedAppend(xs: seq<RemoteAsset>, ys: seq<RemoteAsset>, name: string)
    ensures Named(xs + ys, name) == Named(xs, name) + Named(ys, name)
    decreases |xs|
  {
    if xs != [] {
      assert (xs + ys)[0] == xs[0] && (xs + ys)[1..] == xs[1..] + ys;
      NamedAppend(xs[1..], ys, name);
    } else {
      assert xs + ys == ys;
    }
  }

  lemma {:induction false} UnnamedAppend(xs: seq<RemoteAsset>, ys: seq<RemoteAsset>, name: string)
    ensures Unnamed(xs + ys, name) == Unnamed(xs, name) + Unnamed(ys, name)
    decreases |xs|
  {
    if xs != [] {
      assert (xs + ys)[0] == xs[0] && (xs + ys)[1..] == xs[1..] + ys;
      UnnamedAppend(xs[1..], ys, name);
    } else {
      assert xs + ys == ys;
    }
  }

  /** Removing the entry at `k` leaves every entry with another name, in order. */
  lemma RemoveAtKeepsOthers(remote: seq<RemoteAsset>, k: nat, name: string)
    requires k < |remote| && remote[k].name == name
    ensures Unnamed(RemoveAt(remote, k), name) == Unnamed(remote, name)
  {
    assert remote == remote[..k] + [remote[k]] + remote[k + 1..];
    UnnamedAppend(remote[..k] + [remote[k]], remote[k + 1..], name);
    UnnamedAppend(remote[..k], [remote[k]], name);
    UnnamedAppend(remote[..k], remote[k + 1..], name);
    assert Unnamed([remote[k]], name) == [] by {
      assert [remote[k]][1..] == [];
    }
  }

  /** Other remote assets are untouched: whatever happens to `path`, every
      asset with another name keeps its place and its order. */
  lemma OthersUntouched(p: Progress, releaseId: nat, path: string, local: set<string>, c: AssetCalls)
    ensures Unnamed(UploadOne(p, releaseId, path, local, c).remote, BaseName(path)) == Unnamed(p.remote, BaseName(path))
  {
    if path in local {
      var name := BaseName(path);
      var remote := AfterDelete(p.remote, name, c);
      if c.listOk && c.deleteOk && FindByName(p.remote, name).Some? {
        RemoveAtKeepsOthers(p.remote, FindByName(p.remote, name).value, name);
      }
      if c.upload.Accepted? {
        UnnamedAppend(remote, [RemoteAsset(c.upload.id, name)], name);
        assert Unnamed([RemoteAsset(c.upload.id, name)], name) == [] by {
          assert [RemoteAsset(c.upload.id, name)][1..] == [];
        }
      }
    }
  }

  /** No entry carries the name: the filter keeps nothing. */
  lemma {:induction false} NamedNone(remote: seq<RemoteAsset>, name: string)
    requires forall j :: 0 <= j < |remote| ==> remote[j].name != name
    ensures Named(remote, name) == []
    decreases |remote|
  {
    if remote != [] {
      NamedNone(remote[1..], name);
    }
  }

  /** Deleting the one entry with a name leaves no entry with it, and names unique. */
  lemma RemoveOnlyCopy(remote: seq<RemoteAsset>, k: nat, name: string)
    requires UniqueNames(remote) && k < |remote| && remote[k].name == name
    ensures var r := RemoveAt(remote, k);
      UniqueNames(r) && forall j :: 0 <= j < |r| ==> r[j].name != name
  {
    var r := RemoveAt(remote, k);
    assert forall j :: 0 <= j < |r| ==> r[j] == remote[if j < k then j else j + 1];
  }

  lemma AppendKeepsUnique(remote: seq<RemoteAsset>, a: RemoteAsset)
    requires UniqueNames(remote) && forall j :: 0 <= j < |remote| ==> remote[j].name != a.name
    ensures UniqueNames(remote + [a])
  {
    var q := remote + [a];
    forall i, j | 0 <= i < j < |q| ensures q[i].name != q[j].name {
      assert q[i] == remote[i];
    }
  }

  /** Appending an asset whose name is new keeps names unique, and it is the only one with its name. */
  lemma AppendNewName(remote: seq<RemoteAsset>, a: RemoteAsset)
    requires UniqueNames(remote) && forall j :: 0 <= j < |remote| ==> remote[j].name != a.name
    ensures UniqueNames(remote + [a]) && Named(remote + [a], a.name) == [a]
  {
    NamedNone(remote, a.name);
    NamedAppend(remote, [a], a.name);
    assert Named([a], a.name) == [a] by {
      assert [a][1..] == [];
    }
    AppendKeepsUnique(remote, a);
  }

  /** Re-uploading replaces: after an accepted upload whose listing worked and
      whose same-named predecessor (if any) was deleted, exactly one asset has
      that name and names stay unique. */
  lemma ReplaceLeavesOneCopy(p: Progress, releaseId: nat, path: string, local: set<string>, c: AssetCalls)
    requires UniqueNames(p.remote)
    requires path in local && c.listOk && c.upload.Accepted?
    requires FindByName(p.remote, BaseName(path)).Some? ==> c.deleteOk
    ensures var q := UploadOne(p, releaseId, path, local, c);
      && q.failure.None?
      && Named(q.remote, BaseName(path)) == [RemoteAsset(c.upload.id, BaseName(path))]
      && UniqueNames(q.remote)
  {
    var name := BaseName(path);
    var dup := FindByName(p.remote, name);
    if dup.Some? {
      RemoveOnlyCopy(p.remote, dup.value, name);
    }
    AppendNewName(AfterDelete(p.remote, name, c), RemoteAsset(c.upload.id, name));
  }

  // Properties of the whole loop

  /** The names of the uploads in a trace, in order. */
  function UploadedNames(calls: seq<Call>): seq<string>
    decreases |calls|
  {
    if calls == [] then []
    else (if calls[0].UploadReleaseAsset? then [calls[0].name] else []) + UploadedNames(calls[1..])
  }

  lemma {:induction false} UploadedNamesAppend(xs: seq<Call>, ys: seq<Call>)
    ensures UploadedNames(xs + ys) == UploadedNames(xs) + UploadedNames(ys)
    decreases |xs|
  {
    if xs != [] {
      assert (xs + ys)[0] == xs[0] && (xs + ys)[1..] == xs[1..] + ys;
      UploadedNamesAppend(xs[1..], ys);
    } else {
      assert xs + ys == ys;
    }
  }

  /** The base names of the assets that exist locally, in order. */
  function PresentNames(assets: seq<string>, local: set<string>): seq<string>
    decreases |assets|
  {
    if assets == [] then []
    else (if assets[0] in local then [BaseName(assets[0])] else []) + PresentNames(assets[1..], local)
  }

  /** One iteration uploads the asset's name once, or nothing when the file is missing. */
  lemma UploadOneNames(p: Progress, releaseId: nat, path: string, local: set<string>, c: AssetCalls)
    ensures var q := UploadOne(p, releaseId, path, local, c);
      UploadedNames(q.calls) == UploadedNames(p.calls) + (if path in local then [BaseName(path)] else [])
  {
    if path in local {
      var name := BaseName(path);
      var added := AssetTrace(releaseId, DuplicateId(p.remote, name, c), name);
      UploadedNamesAppend(p.calls, added);
      AssetTraceNames(releaseId, DuplicateId(p.remote, name, c), name);
    }
  }

  lemma AssetTraceNames(releaseId: nat, duplicate: Option<nat>, name: string)
    ensures UploadedNames(AssetTrace(releaseId, duplicate, name)) == [name]
  {
    var t := AssetTrace(releaseId, duplicate, name);
    var last := [UploadReleaseAsset(name)];
    assert last[1..] == [];
    assert UploadedNames(last) == [name];
    if duplicate.Some? {
      assert t[1..][1..] == last;
      assert UploadedNames(t[1..]) == [name];
    } else {
      assert t[1..] == last;
    }
  }

  /** The loop stopped at the `n`-th asset: that file exists, its upload was
      rejected, and the uploads attempted are those of the existing files
      before it, then its own. */
  predicate StoppedAt(p: Progress, q: Progress, assets: seq<string>, local: set<string>, n: nat) {
    && 0 < n <= |assets|
    && assets[n - 1] in local
    && q.failure == Some(UploadFailed(assets[n - 1]))
    && UploadedNames(q.calls) == UploadedNames(p.calls) + PresentNames(assets[..n - 1], local) + [BaseName(assets[n - 1])]
  }

  /** The names present among the first `n + 1` assets: the first asset's, then those of the next `n`. */
  lemma PresentNamesPrefix(assets: seq<string>, local: set<string>, m: nat)
    requires 0 < m <= |assets|
    ensures PresentNames(assets[..m], local)
         == (if assets[0] in local then [BaseName(assets[0])] else []) + PresentNames(assets[1..][..m - 1], local)
  {
    assert assets[..m][0] == assets[0] && assets[..m][1..] == assets[1..][..m - 1];
  }

  /** Once a failure is recorded the remaining assets are not attempted. */
  lemma FailureIsFinal(p: Progress, releaseId: nat, assets: seq<string>, local: set<string>,
                       env: nat -> AssetCalls, k: nat)
    requires p.failure.Some?
    ensures Uploads(p, releaseId, assets, local, env, k) == p
  {
  }

  /** Step: regrouping a concatenation. */
  lemma Regroup(a: seq<string>, b: seq<string>, c: seq<string>, d: seq<string>)
    ensures (a + b) + c + d == a + (b + c) + d
  {
  }

  /** Step: stopping at the first asset. */
  lemma StoppedAtFirst(p: Progress, q: Progress, assets: seq<string>, local: set<string>)
    requires assets != [] && assets[0] in local && q.failure == Some(UploadFailed(assets[0]))
    requires UploadedNames(q.calls) == UploadedNames(p.calls) + [BaseName(assets[0])]
    ensures StoppedAt(p, q, assets, local, 1)
  {
    var before, b := UploadedNames(p.calls), BaseName(assets[0]);
    var none := PresentNames(assets[..0], local);
    assert none == [] by {
      assert assets[..0] == [];
    }
    assert before + none + [b] == before + [b];
  }

  /** Step: stopping later, after the first asset went through. */
  lemma StoppedLater(p: Progress, p': Progress, q: Progress, assets: seq<string>, local: set<string>, n: nat)
    requires assets != [] && StoppedAt(p', q, assets[1..], local, n)
    requires UploadedNames(p'.calls)
          == UploadedNames(p.calls) + (if assets[0] in local then [BaseName(assets[0])] else [])
    ensures StoppedAt(p, q, assets, local, n + 1)
  {
    var rest := assets[1..];
    assert rest[n - 1] == assets[n];
    var before, tail := UploadedNames(p.calls), PresentNames(rest[..n - 1], local);
    var here := if assets[0] in local then [BaseName(assets[0])] else [];
    var last := [BaseName(assets[n])];
    assert UploadedNames(q.calls) == (before + here) + tail + last;
    PresentNamesPrefix(assets, local, n);
    Regroup(before, here, tail, last);
  }

  /** A rejected upload ends the run: a failed run stopped at some asset whose
      upload was rejected, and no asset after it was uploaded. */
  lemma {:induction false} UploadsStopsOnFailure(p: Progress, releaseId: nat, assets: seq<string>, local: set<string>,
                                                 env: nat -> AssetCalls, k: nat)
    requires p.failure.None?
    ensures var q := Uploads(p, releaseId, assets, local, env, k);
      q.failure.Some? ==> exists n: nat :: StoppedAt(p, q, assets, local, n)
    decreases |assets|
  {
    if assets != [] {
      var p' := UploadOne(p, releaseId, assets[0], local, env(k));
      var q := Uploads(p', releaseId, assets[1..], local, env, k + 1);
      assert Uploads(p, releaseId, assets, local, env, k) == q;
      UploadOneNames(p, releaseId, assets[0], local, env(k));
      if p'.failure.Some? {
        FailureIsFinal(p', releaseId, assets[1..], local, env, k + 1);
        StoppedAtFirst(p, q, assets, local);
      } else {
        UploadsStopsOnFailure(p', releaseId, assets[1..], local, env, k + 1);
        if q.failure.Some? {
          var n: nat :| StoppedAt(p', q, assets[1..], local, n);
          StoppedLater(p, p', q, assets, local, n);
        }
      }
    }
  }

  /** A run of the loop that ends without failure uploads exactly the assets
      that exist locally, one at a time and in input order. */
  lemma {:induction false} UploadsInOrder(p: Progress, releaseId: nat, assets: seq<string>, local: set<string>,
                                          env: nat -> AssetCalls, k: nat)
    requires p.failure.None?
    ensures var q := Uploads(p, releaseId, assets, local, env, k);
      q.failure.None? ==> UploadedNames(q.calls) == UploadedNames(p.calls) + PresentNames(assets, local)
    decreases |assets|
  {
    if assets != [] {
      var p' := UploadOne(p, releaseId, assets[0], local, env(k));
      var q := Uploads(p', releaseId, assets[1..], local, env, k + 1);
      assert Uploads(p, releaseId, assets, local, env, k) == q;
      var here := if assets[0] in local then [BaseName(assets[0])] else [];
      assert PresentNames(assets, local) == here + PresentNames(assets[1..], local);
      UploadOneNames(p, releaseId, assets[0], local, env(k));
      assert UploadedNames(p'.calls) == UploadedNames(p.calls) + here;
      if p'.failure.None? {
        UploadsInOrder(p', releaseId, assets[1..], local, env, k + 1);
        if q.failure.None? {
          assert UploadedNames(q.calls) == UploadedNames(p.calls) + here + PresentNames(assets[1..], local);
        }
      } else {
        assert q == p';
      }
    } else {
      assert Uploads(p, releaseId, assets, local, env, k) == p;
      assert PresentNames(assets, local) == [];
      assert UploadedNames(p.calls) + [] == UploadedNames(p.calls);
    }
  }

  // ---------------------------------------------------------------------------
  // The run

  datatype Outcome = Failed(failure: Failure) | NothingToUpload | Published

  /** The process's exit status: 1 for every failure caught at the top level. */
  function ExitCode(o: Outcome): (code: int)
    ensures code == 0 <==> !o.Failed?
    ensures code == 0 || code == 1
  {
    if o.Failed? then 1 else 0
  }

  /** The whole script. `pkg` is None when package.json cannot be read;
      `listing` is None when `dist/` does not exist. Returns the outcome, the
      calls made to the service, and the release's assets at the end ([] when
      no release was reached). */
  method Publish(argv: seq<string>, pkg: Option<Manifest>, githubToken: Option<string>, ghToken: Option<string>,
                 lookup: LookupReply, creation: CreateReply, distDir: string, listing: Option<seq<string>>,
                 local: set<string>, env: nat -> AssetCalls)
    returns (o: Outcome, calls: seq<Call>, assets: seq<RemoteAsset>)
    ensures pkg.None? ==> o == Failed(UnreadableManifest) && calls == []
    ensures pkg.Some? && !HasCredential(githubToken, ghToken) ==> o == Failed(MissingCredential) && calls == []
    ensures pkg.Some? && HasCredential(githubToken, ghToken) ==>
      var args := Parse(argv, NoArgs);
      var d := Resolve(args, pkg.value);
      var r := EnsureRelease(d, lookup, creation);
      && (r.Aborted? ==> o == Failed(r.failure) && calls == r.calls && assets == [])
      && (r.Ready? ==>
        var list := AssetList(args.assets, d.version, distDir, listing);
        && (list == [] ==> o == NothingToUpload && calls == r.calls && assets == r.release.assets)
        && (list != [] ==>
          var q := Uploads(Progress(r.release.assets, [], None), r.release.id, list, local, env, 0);
          && calls == r.calls + q.calls
          && assets == q.remote
          && o == (if q.failure.Some? then Failed(q.failure.value) else Published)))
  {
    var args := ParseArgs(argv);
    if pkg.None? {
      return Failed(UnreadableManifest), [], [];
    }
    var d := Resolve(args, pkg.value);
    if !HasCredential(githubToken, ghToken) {
      return Failed(MissingCredential), [], [];
    }
    var r := EnsureRelease(d, lookup, creation);
    if r.Aborted? {
      return Failed(r.failure), r.calls, [];
    }
    var list := AssetList(args.assets, d.version, distDir, listing);
    if list == [] {
      // nothing to upload: a successful exit
      return NothingToUpload, r.calls, r.release.assets;
    }
    var q := UploadAll(r.release.assets, r.release.id, list, local, env);
    calls := r.calls + q.calls;
    assets := q.remote;
    o := if q.failure.Some? then Failed(q.failure.value) else Published;
  }
}
