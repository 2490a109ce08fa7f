/**
 * The pure rules of the server's plugin packager: writing the client key
 * into the plugin's main file, naming the download, choosing the plugin
 * directory, and choosing which downloads the periodic cleanup deletes.
 * File copying, zipping and the file system are not modelled; their results
 * are parameters.
 */
module Packaging {
  import opened Optional
  import opened Decimal

  // ---------------------------------------------------------------------
  // The client-key placeholder.

  const Token := "{{VAMBE_CLIENT_TOKEN}}"

  /** The length of a placeholder: a quote, the token, a quote. */
  const PlaceholderLength: nat := 24

  predicate IsQuote(c: char) {
    c == '\'' || c == '"'
  }

  /** `/['"]{{VAMBE_CLIENT_TOKEN}}['"]/` matches at `i`: either quote on either side. */
  predicate PlaceholderAt(s: string, i: int) {
    0 <= i && i + PlaceholderLength <= |s|
    && IsQuote(s[i]) && s[i + 1..i + 23] == Token && IsQuote(s[i + 23])
  }

  /** The leftmost match at or after `from`. */
  function FindPlaceholderFrom(s: string, from: nat): (r: Option<nat>)
    requires from <= |s|
    ensures r.Some? ==> from <= r.value && PlaceholderAt(s, r.value)
    ensures forall j :: from <= j && (r.None? || j < r.value) ==> !PlaceholderAt(s, j)
    decreases |s| - from
  {
    if from + PlaceholderLength > |s| then None
    else if PlaceholderAt(s, from) then Some(from)
    else FindPlaceholderFrom(s, from + 1)
  }

  /** The leftmost match, as the non-global regex finds it. */
  function FindPlaceholder(s: string): (r: Option<nat>)
    ensures r.Some? ==> PlaceholderAt(s, r.value)
    ensures forall j :: (r.None? || j < r.value) ==> !PlaceholderAt(s, j)
  {
    FindPlaceholderFrom(s, 0)
  }

  /** The replacement text: the client key in single quotes. */
  function Quoted(key: string): (q: string)
    ensures |q| == |key| + 2
  {
    ['\''] + key + ['\'']
  }

  /**
   * The substitution the packager means to make: the first placeholder is
   * replaced by the quoted key, taken literally.
   */
  function ReplacePlaceholder(content: string, key: string): (r: string)
    ensures FindPlaceholder(content).None? ==> r == content
    ensures FindPlaceholder(content).Some? ==>
      var i := FindPlaceholder(content).value;
      |r| == |content| - PlaceholderLength + |key| + 2
      && r[..i] == content[..i]
      && r[i..i + |key| + 2] == Quoted(key)
      && r[i + |key| + 2..] == content[i + PlaceholderLength..]
  {
    match FindPlaceholder(content)
    case None => content
    case Some(i) =>
      var r := content[..i] + Quoted(key) + content[i + PlaceholderLength..];
      assert r[..i] == content[..i];
      assert r[i..i + |key| + 2] == Quoted(key);
      assert r[i + |key| + 2..] == content[i + PlaceholderLength..];
      r
  }

  /**
   * `String.prototype.replace` with a replacement string: `$$` stands for
   * `$`, `$&` for the match, `` $` `` for the text before it and `$'` for
   * the text after it (the regex has no groups, so `$1` and the like stay
   * as they are).
   */
  function Expand(r: string, matched: string, before: string, after: string): string
    decreases |r|
  {
    if |r| == 0 then ""
    else if r[0] == '$' && |r| >= 2 && r[1] == '$' then "$" + Expand(r[2..], matched, before, after)
    else if r[0] == '$' && |r| >= 2 && r[1] == '&' then matched + Expand(r[2..], matched, before, after)
    else if r[0] == '$' && |r| >= 2 && r[1] == '`' then before + Expand(r[2..], matched, before, after)
    else if r[0] == '$' && |r| >= 2 && r[1] == '\'' then after + Expand(r[2..], matched, before, after)
    else [r[0]] + Expand(r[1..], matched, before, after)
  }

  /** `content.replace(regex, `'${clientApiKey}'`)` as written: the key goes through the `$` expansion. */
  function ReplaceAsWritten(content: string, key: string): string {
    match FindPlaceholder(content)
    case None => content
    case Some(i) =>
      var before := content[..i];
      var after := content[i + PlaceholderLength..];
      before + Expand(Quoted(key), content[i..i + PlaceholderLength], before, after) + after
  }

  lemma {:induction false} ExpandPlain(r: string, matched: string, before: string, after: string)
    requires '$' !in r
    ensures Expand(r, matched, before, after) == r
    decreases |r|
  {
    if |r| > 0 {
      assert '$' !in r[1..];
      ExpandPlain(r[1..], matched, before, after);
    }
  }

  /** For a key without `$` the code as written makes the intended substitution. */
  lemma AsWrittenWithoutDollar(content: string, key: string)
    requires '$' !in key
    ensures ReplaceAsWritten(content, key) == ReplacePlaceholder(content, key)
  {
    if FindPlaceholder(content).Some? {
      var i := FindPlaceholder(content).value;
      assert '$' !in Quoted(key);
      ExpandPlain(Quoted(key), content[i..i + PlaceholderLength], content[..i], content[i + PlaceholderLength..]);
    }
  }

  /** Text made of a `$`-free prefix and a rest expands to the prefix and the expanded rest. */
  lemma {:induction false} ExpandPrefix(a: string, r: string, matched: string, before: string, after: string)
    requires '$' !in a
    ensures Expand(a + r, matched, before, after) == a + Expand(r, matched, before, after)
    decreases |a|
  {
    if |a| > 0 {
      assert (a + r)[0] == a[0];
      assert (a + r)[1..] == a[1..] + r;
      assert '$' !in a[1..];
      ExpandPrefix(a[1..], r, matched, before, after);
      assert a == [a[0]] + a[1..];
    } else {
      assert a + r == r;
    }
  }

  /** A content that is just the placeholder, in single quotes. */
  const Placeholder: string := ['\''] + Token + ['\'']

  lemma PlaceholderFound()
    ensures FindPlaceholder(Placeholder) == Some(0)
  {
    assert Placeholder[1..23] == Token;
    assert PlaceholderAt(Placeholder, 0);
  }

  /**
   * A key holding `$&` is mangled by the code as written: the matched
   * placeholder is pasted into the key where the two characters were, while
   * the intended substitution keeps the key as it is.
   */
  lemma {:induction false} DollarKeyMangled(a: string, b: string)
    requires '$' !in a && '$' !in b
    ensures ReplacePlaceholder(Placeholder, a + "$&" + b) == Quoted(a + "$&" + b)
    ensures ReplaceAsWritten(Placeholder, a + "$&" + b) == ['\''] + a + Placeholder + b + ['\'']
    ensures ReplaceAsWritten(Placeholder, a + "$&" + b) != ReplacePlaceholder(Placeholder, a + "$&" + b)
  {
    PlaceholderFound();
    var key := a + "$&" + b;
    assert Placeholder[..0] == [] && Placeholder[0..24] == Placeholder && Placeholder[24..] == [];
    assert ReplacePlaceholder(Placeholder, key) == Quoted(key);
    var pre := ['\''] + a;
    var post := b + ['\''];
    assert Quoted(key) == pre + ("$&" + post);
    assert '$' !in pre;
    ExpandPrefix(pre, "$&" + post, Placeholder, [], []);
    assert ("$&" + post)[2..] == post;
    assert Expand("$&" + post, Placeholder, [], []) == Placeholder + Expand(post, Placeholder, [], []);
    assert '$' !in post;
    ExpandPlain(post, Placeholder, [], []);
    assert ReplaceAsWritten(Placeholder, key) == [] + Expand(Quoted(key), Placeholder, [], []) + [];
    assert |ReplaceAsWritten(Placeholder, key)| == |a| + |b| + 26;
  }

  /** With no placeholder the content is left as it is. */
  lemma NoPlaceholderUnchanged(content: string, key: string)
    requires forall j :: !PlaceholderAt(content, j)
    ensures ReplacePlaceholder(content, key) == content
    ensures ReplaceAsWritten(content, key) == content
  {
  }

  /** Only the first placeholder is replaced: a later one is still there, shifted by the change in length. */
  lemma OnlyFirstReplaced(content: string, key: string, j: nat)
    requires FindPlaceholder(content).Some? && FindPlaceholder(content).value + PlaceholderLength <= j
    requires PlaceholderAt(content, j)
    ensures PlaceholderAt(ReplacePlaceholder(content, key), j - PlaceholderLength + |key| + 2)
  {
    var i := FindPlaceholder(content).value;
    var r := ReplacePlaceholder(content, key);
    var d := j - PlaceholderLength + |key| + 2;
    var tail := content[i + PlaceholderLength..];
    assert r[i + |key| + 2..] == tail;
    assert r[d..d + PlaceholderLength] == tail[j - i - PlaceholderLength..j - i];
    assert content[j..j + PlaceholderLength] == tail[j - i - PlaceholderLength..j - i];
  }

  // ---------------------------------------------------------------------
  // The download.

  const DefaultServerUrl := "http://localhost:3003"
  const FilePrefix := "vambe_for_wc_"
  const FileSuffix := ".zip"

  /** `vambe_for_wc_${Date.now()}.zip`. */
  function DownloadFileName(timestamp: nat): (name: string)
    ensures |name| == |FilePrefix| + |ToDecimal(timestamp)| + |FileSuffix|
  {
    FilePrefix + ToDecimal(timestamp) + FileSuffix
  }

  /** The server URL: the `SERVER_URL` setting unless it is missing or empty. */
  function ServerUrl(setting: Option<string>): (u: string)
    ensures setting.Some? && setting.value != "" ==> u == setting.value
    ensures setting.None? || setting.value == "" ==> u == DefaultServerUrl
  {
    if setting.Some? && setting.value != "" then setting.value else DefaultServerUrl
  }

  /** The URL returned for a generated plugin. */
  function DownloadUrl(setting: Option<string>, timestamp: nat): (url: string)
    ensures var base := ServerUrl(setting) + "/download/" + FilePrefix;
      |base| + |FileSuffix| < |url| && url[..|base|] == base && url[|url| - |FileSuffix|..] == FileSuffix &&
      AllDigits(url[|base|..|url| - |FileSuffix|]) && Value(url[|base|..|url| - |FileSuffix|]) == timestamp
  {
    var url := ServerUrl(setting) + "/download/" + DownloadFileName(timestamp);
    var base := ServerUrl(setting) + "/download/" + FilePrefix;
    assert url == base + ToDecimal(timestamp) + FileSuffix;
    assert url[|base|..|url| - |FileSuffix|] == ToDecimal(timestamp);
    url
  }

  /** The time stamp can be read back from a download's file name. */
  lemma TimestampOfFileName(timestamp: nat)
    ensures var name := DownloadFileName(timestamp);
      var digits := name[|FilePrefix|..|name| - |FileSuffix|];
      AllDigits(digits) && Value(digits) == timestamp
  {
    var name := DownloadFileName(timestamp);
    assert name[|FilePrefix|..|name| - |FileSuffix|] == ToDecimal(timestamp);
  }

  /** Downloads made at different times have different names. */
  lemma FileNamesDistinct(t1: nat, t2: nat)
    requires t1 != t2
    ensures DownloadFileName(t1) != DownloadFileName(t2)
  {
    TimestampOfFileName(t1);
    TimestampOfFileName(t2);
  }

  // ---------------------------------------------------------------------
  // The plugin directory.

  /** The index of the first candidate that exists, scanning in order. */
  method FirstExisting(candidates: seq<string>, exists_: string -> bool) returns (r: Option<nat>)
    ensures r.Some? ==> r.value < |candidates| && exists_(candidates[r.value])
    ensures r.Some? ==> forall k :: 0 <= k < r.value ==> !exists_(candidates[k])
    ensures r.None? ==> forall k :: 0 <= k < |candidates| ==> !exists_(candidates[k])
  {
    var i := 0;
    while i < |candidates|
      invariant 0 <= i <= |candidates|
      invariant forall k :: 0 <= k < i ==> !exists_(candidates[k])
    {
      if exists_(candidates[i]) {
        return Some(i);
      }
      i := i + 1;
    }
    return None;
  }

  /**
   * The packager's plugin directory: the first of the candidate paths that
   * exists, else the default. `resolve` is `path.resolve`.
   */
  method PluginPath(cwd: string, resolve: (string, string) -> string, exists_: string -> bool) returns (p: string)
    ensures p in Candidates(cwd, resolve)
    ensures exists_(p) || p == resolve(cwd, "../vambe_for_wc")
    ensures forall j :: 0 <= j < |Candidates(cwd, resolve)| && exists_(Candidates(cwd, resolve)[j]) ==>
      exists_(p) && p in Candidates(cwd, resolve)[..j + 1]
  {
    var cands := Candidates(cwd, resolve);
    var found := FirstExisting(cands, exists_);
    if found.Some? {
      p := cands[found.value];
      forall j | 0 <= j < |cands| && exists_(cands[j]) ensures p in cands[..j + 1] {
        assert cands[..j + 1][found.value] == p;
      }
    } else {
      p := resolve(cwd, "../vambe_for_wc");
      assert p == cands[0];
    }
  }

  /** The candidate paths, in the order they are tried. */
  function Candidates(cwd: string, resolve: (string, string) -> string): (c: seq<string>)
    ensures |c| == 8 && c[0] == resolve(cwd, "../vambe_for_wc")
  {
    [ resolve(cwd, "../vambe_for_wc"),
      resolve(cwd, "vambe_for_wc"),
      resolve(cwd, "../../vambe_for_wc"),
      resolve(cwd, "../../../vambe_for_wc"),
      resolve(cwd, "../../../../vambe_for_wc"),
      "/vambe_for_wc",
      "/app/vambe_for_wc",
      resolve("/app", "../vambe_for_wc") ]
  }

  // ---------------------------------------------------------------------
  // Cleanup of old downloads.

  /** The age limit: two hours in milliseconds (the comment above it says three). */
  const MaxAgeMs: int := 2 * 60 * 60 * 1000

  /** A download directory entry: its name and modification time (ms). */
  datatype FileEntry = FileEntry(name: string, mtimeMs: int)

  /** A file is deleted when it is strictly older than the limit. */
  predicate Expired(f: FileEntry, now: int) {
    now - f.mtimeMs > MaxAgeMs
  }

  /** The expired files, in directory order. */
  function ExpiredFiles(files: seq<FileEntry>, now: int): (r: seq<FileEntry>)
    ensures |r| <= |files|
  {
    if |files| == 0 then []
    else ExpiredFiles(files[..|files| - 1], now) + (if Expired(files[|files| - 1], now) then [files[|files| - 1]] else [])
  }

  /** `cleanupOldFiles`: walks the directory, deleting the expired files and counting them. */
  method CleanupOldFiles(files: seq<FileEntry>, now: int) returns (deleted: seq<FileEntry>, deletedCount: nat)
    ensures deleted == ExpiredFiles(files, now)
    ensures deletedCount == |deleted|
  {
    deleted, deletedCount := [], 0;
    var i := 0;
    while i < |files|
      invariant 0 <= i <= |files|
      invariant deleted == ExpiredFiles(files[..i], now)
      invariant deletedCount == |deleted|
    {
      assert files[..i + 1][..i] == files[..i];
      if Expired(files[i], now) {
        deleted := deleted + [files[i]];
        deletedCount := deletedCount + 1;
      }
      i := i + 1;
    }
    assert files[..|files|] == files;
  }

  /** The expired files are exactly the files older than the limit: each deleted file is expired, each expired file is deleted. */
  lemma {:induction false} ExpiredFilesExact(files: seq<FileEntry>, now: int)
    ensures forall f :: f in ExpiredFiles(files, now) <==> f in files && Expired(f, now)
  {
    if |files| > 0 {
      var init := files[..|files| - 1];
      ExpiredFilesExact(init, now);
      assert files == init + [files[|files| - 1]];
    }
  }

  /** A file exactly two hours old is kept; one a millisecond older is deleted. */
  lemma ThresholdIsStrict(name: string, now: int)
    ensures !Expired(FileEntry(name, now - MaxAgeMs), now)
    ensures Expired(FileEntry(name, now - MaxAgeMs - 1), now)
  {
  }
}
