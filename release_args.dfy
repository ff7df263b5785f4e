/** `parseArgs` of the release script (create-github-release.js): a
    hand-written scan of the command-line tokens. `--owner`, `--repo`,
    `--notes` and `--title` each take the next token, whatever it looks like;
    a later occurrence overwrites an earlier one, and a flag in last position
    reads past the end and stores `undefined`. `--assets` appends every
    following token up to the first one that starts with "--", then steps back
    so that this token is processed as usual. Anything else is ignored. */
module ReleaseArgs {
  import opened Js

  /** The object `parseArgs` returns; `assets` is always a list. */
  datatype Args = Args(owner: Option<string>, repo: Option<string>, notes: Option<string>,
                       title: Option<string>, assets: seq<string>)

  /** The initial object: no value set and no assets. */
  const NoArgs := Args(None, None, None, None, [])

  /** The four flags that take one value. */
  datatype ValueFlag = Owner | Repo | Notes | Title

  function FlagName(f: ValueFlag): string {
    match f
    case Owner => "--owner"
    case Repo => "--repo"
    case Notes => "--notes"
    case Title => "--title"
  }

  /** The value flag a token names, if any. */
  function FlagOf(tok: string): (r: Option<ValueFlag>)
    ensures r.Some? ==> FlagName(r.value) == tok
    ensures r.None? ==> forall f: ValueFlag :: FlagName(f) != tok
  {
    if tok == "--owner" then Some(Owner)
    else if tok == "--repo" then Some(Repo)
    else if tok == "--notes" then Some(Notes)
    else if tok == "--title" then Some(Title)
    else None
  }

  function Get(a: Args, f: ValueFlag): Option<string> {
    match f
    case Owner => a.owner
    case Repo => a.repo
    case Notes => a.notes
    case Title => a.title
  }

  /** `out.<field> = v` for the field a value flag sets. */
  function Set(a: Args, f: ValueFlag, v: Option<string>): (r: Args)
    ensures Get(r, f) == v
    ensures forall g :: g != f ==> Get(r, g) == Get(a, g)
    ensures r.assets == a.assets
  {
    match f
    case Owner => a.(owner := v)
    case Repo => a.(repo := v)
    case Notes => a.(notes := v)
    case Title => a.(title := v)
  }

  /** The number of leading tokens that do not start with "--": how many
      tokens an `--assets` flag collects. */
  function AssetRun(ts: seq<string>): (n: nat)
    ensures n <= |ts|
    ensures forall k :: 0 <= k < n ==> !StartsWith(ts[k], "--")
    ensures n < |ts| ==> StartsWith(ts[n], "--")
    decreases |ts|
  {
    if ts == [] || StartsWith(ts[0], "--") then 0 else 1 + AssetRun(ts[1..])
  }

  /** What `parseArgs` does with the tokens `argv` when it has built `out` so far. */
  function Parse(argv: seq<string>, out: Args): Args
    decreases |argv|
  {
    if argv == [] then out
    else if FlagOf(argv[0]).Some? then
      var value := if |argv| > 1 then Some(argv[1]) else None;
      Parse(argv[if |argv| > 1 then 2 else 1..], Set(out, FlagOf(argv[0]).value, value))
    else if argv[0] == "--assets" then
      var n := AssetRun(argv[1..]);
      Parse(argv[1 + n..], out.(assets := out.assets + argv[1..1 + n]))
    else Parse(argv[1..], out)
  }

  /** The tokens from index `i` on; empty once `i` has run past the end. */
  function From(argv: seq<string>, i: nat): seq<string> {
    if i <= |argv| then argv[i..] else []
  }

  /** One value flag at index `i`: the next token (or `undefined`) is stored
      and scanning resumes after it. */
  lemma ParseValueFlagAt(argv: seq<string>, i: nat, out: Args)
    requires i < |argv| && FlagOf(argv[i]).Some?
    ensures Parse(argv[i..], out)
         == Parse(From(argv, i + 2), Set(out, FlagOf(argv[i]).value, if i + 1 < |argv| then Some(argv[i + 1]) else None))
  {
    var ts := argv[i..];
    assert ts[0] == argv[i];
    if i + 1 < |argv| {
      assert ts[1] == argv[i + 1];
      assert ts[2..] == argv[i + 2..];
    } else {
      assert ts[1..] == [];
    }
  }

  /** A run of `n` non-flag tokens followed by a flag (or the end) is what `AssetRun` measures. */
  lemma {:induction false} AssetRunIs(ts: seq<string>, n: nat)
    requires n <= |ts|
    requires forall k :: 0 <= k < n ==> !StartsWith(ts[k], "--")
    requires n < |ts| ==> StartsWith(ts[n], "--")
    ensures AssetRun(ts) == n
    decreases n
  {
    if n > 0 {
      forall k | 0 <= k < n - 1 ensures !StartsWith(ts[1..][k], "--") {
        assert ts[1..][k] == ts[k + 1];
      }
      assert n - 1 < |ts| - 1 ==> ts[1..][n - 1] == ts[n];
      AssetRunIs(ts[1..], n - 1);
    }
  }

  /** `--assets` at index `i` whose run of non-flag tokens ends at `j`. */
  lemma ParseAssetsAt(argv: seq<string>, i: nat, j: nat, out: Args)
    requires i < j <= |argv| && argv[i] == "--assets"
    requires forall k :: i + 1 <= k < j ==> !StartsWith(argv[k], "--")
    requires j < |argv| ==> StartsWith(argv[j], "--")
    ensures Parse(argv[i..], out) == Parse(argv[j..], out.(assets := out.assets + argv[i + 1..j]))
  {
    var ts := argv[i..];
    var rest := argv[i + 1..];
    var n := j - i - 1;
    assert ts[0] == "--assets" && ts[1..] == rest;
    forall k | 0 <= k < n ensures !StartsWith(rest[k], "--") {
      assert rest[k] == argv[i + 1 + k];
    }
    assert n < |rest| ==> rest[n] == argv[j];
    AssetRunIs(rest, n);
    assert ts[1..1 + n] == argv[i + 1..j];
    assert ts[1 + n..] == argv[j..];
  }

  /** Any other token at index `i` is skipped. */
  lemma ParseOtherAt(argv: seq<string>, i: nat, out: Args)
    requires i < |argv| && FlagOf(argv[i]).None? && argv[i] != "--assets"
    ensures Parse(argv[i..], out) == Parse(argv[i + 1..], out)
  {
    assert argv[i..][1..] == argv[i + 1..];
  }

  /** The `--assets` branch of `parseArgs`: collects the tokens after index
      `start` up to the first one that starts with "--", and returns the index
      of the last token it consumed, so that the loop's own step lands on that
      flag. */
  method CollectAssets(argv: seq<string>, start: nat, before: Args) returns (last: nat, out: Args)
    requires start < |argv| && argv[start] == "--assets"
    ensures start <= last < |argv|
    ensures out == before.(assets := before.assets + argv[start + 1..last + 1])
    ensures Parse(argv[start..], before) == Parse(argv[last + 1..], out)
  {
    out := before;
    var i := start + 1;
    while i < |argv| && !StartsWith(argv[i], "--")
      invariant start + 1 <= i <= |argv|
      invariant out == before.(assets := before.assets + argv[start + 1..i])
      invariant forall k :: start + 1 <= k < i ==> !StartsWith(argv[k], "--")
    {
      assert argv[start + 1..i + 1] == argv[start + 1..i] + [argv[i]];
      out := out.(assets := out.assets + [argv[i]]);
      i := i + 1;
    }
    ParseAssetsAt(argv, start, i, before);
    last := i - 1;
  }

  /** `parseArgs` over the command-line tokens after the interpreter and script. */
  method ParseArgs(argv: seq<string>) returns (out: Args)
    ensures out == Parse(argv, NoArgs)
  {
    out := NoArgs;
    var i := 0;
    while i < |argv|
      invariant 0 <= i <= |argv| + 1
      invariant Parse(From(argv, i), out) == Parse(argv, NoArgs)
      decreases |argv| + 1 - i
    {
      var a := argv[i];
      var flag := FlagOf(a);
      if flag.Some? {
        ParseValueFlagAt(argv, i, out);
        // the value is the next token, undefined past the end
        i := i + 1;
        var value := if i < |argv| then Some(argv[i]) else None;
        out := Set(out, flag.value, value);
      } else if a == "--assets" {
        i, out := CollectAssets(argv, i, out);
      } else {
        ParseOtherAt(argv, i, out);
      }
      i := i + 1;
    }
  }

  /** Without an `--assets` token the asset list stays as it was (so it is
      empty for a parse that starts from `NoArgs`). */
  lemma {:induction false} AssetsAbsent(argv: seq<string>, out: Args)
    requires "--assets" !in argv
    ensures Parse(argv, out).assets == out.assets
    decreases |argv|
  {
    if argv != [] {
      if FlagOf(argv[0]).Some? {
        var value := if |argv| > 1 then Some(argv[1]) else None;
        var rest := argv[if |argv| > 1 then 2 else 1..];
        assert forall t :: t in rest ==> t in argv;
        AssetsAbsent(rest, Set(out, FlagOf(argv[0]).value, value));
      } else {
        assert forall t :: t in argv[1..] ==> t in argv;
        AssetsAbsent(argv[1..], out);
      }
    }
  }

  /** `--assets` appends, in order, every following token up to the first one
      that starts with "--", and that token is then processed as usual. */
  lemma AssetsCollected(xs: seq<string>, rest: seq<string>, out: Args)
    requires forall k :: 0 <= k < |xs| ==> !StartsWith(xs[k], "--")
    requires rest != [] ==> StartsWith(rest[0], "--")
    ensures Parse(["--assets"] + xs + rest, out) == Parse(rest, out.(assets := out.assets + xs))
  {
    var argv := ["--assets"] + xs + rest;
    forall k | 1 <= k < 1 + |xs| ensures !StartsWith(argv[k], "--") {
      assert argv[k] == xs[k - 1];
    }
    assert rest != [] ==> argv[1 + |xs|] == rest[0];
    ParseAssetsAt(argv, 0, 1 + |xs|, out);
    assert argv[0..] == argv;
    assert argv[1..1 + |xs|] == xs;
    assert argv[1 + |xs|..] == rest;
  }

  /** A value flag takes the next token, even one that starts with "--". */
  lemma ValueFlagTakesNext(f: ValueFlag, v: string, rest: seq<string>, out: Args)
    ensures Parse([FlagName(f), v] + rest, out) == Parse(rest, Set(out, f, Some(v)))
  {
    assert ([FlagName(f), v] + rest)[2..] == rest;
  }

  /** A value flag in last position stores `undefined`. */
  lemma ValueFlagAtEnd(f: ValueFlag, out: Args)
    ensures Parse([FlagName(f)], out) == Set(out, f, None)
  {
  }

  /** Tokens that never name a flag leave that flag's value alone: the value
      seen last is the one that stays. */
  lemma {:induction false} ValueKept(argv: seq<string>, out: Args, f: ValueFlag)
    requires FlagName(f) !in argv
    ensures Get(Parse(argv, out), f) == Get(out, f)
    decreases |argv|
  {
    if argv != [] {
      if FlagOf(argv[0]).Some? {
        var value := if |argv| > 1 then Some(argv[1]) else None;
        var rest := argv[if |argv| > 1 then 2 else 1..];
        assert forall t :: t in rest ==> t in argv;
        assert FlagOf(argv[0]).value != f;
        ValueKept(rest, Set(out, FlagOf(argv[0]).value, value), f);
      } else if argv[0] == "--assets" {
        var n := AssetRun(argv[1..]);
        assert forall t :: t in argv[1 + n..] ==> t in argv;
        ValueKept(argv[1 + n..], out.(assets := out.assets + argv[1..1 + n]), f);
      } else {
        assert forall t :: t in argv[1..] ==> t in argv;
        ValueKept(argv[1..], out, f);
      }
    }
  }

  /** An unrecognised token is skipped. */
  lemma UnknownIgnored(t: string, rest: seq<string>, out: Args)
    requires FlagOf(t).None? && t != "--assets"
    ensures Parse([t] + rest, out) == Parse(rest, out)
  {
    assert ([t] + rest)[1..] == rest;
  }
}
