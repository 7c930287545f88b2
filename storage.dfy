/** The access-URL resolver (src/lib/storage.ts): storage-path extraction from
    a stored image URL and the signed-URL requests with their null fallbacks.
    The object store and the WHATWG URL parser are outside the model; they are
    the functions held by `Services`. */
module Storage {
  import opened Wrappers

  /** Seconds a signed URL stays valid when the caller gives no expiry. */
  const DefaultExpiry: int := 3600

  const StoragePrefix: string := "/storage/v1/object/"
  const PublicInfix: string := "public/"
  const SignInfix: string := "sign/"
  const BucketDir: string := "clothing-images/"

  /** What `new URL(url)` gives: the pathname, or a parse failure (a throw). */
  datatype UrlParse = Pathname(path: string) | Invalid

  /** The remote services the resolver consumes. */
  datatype Services = Services(
    parseUrl: string -> UrlParse,
    createSignedUrl: (string, int) -> Remote<string>,
    createSignedUrls: (seq<string>, int) -> Remote<seq<Option<string>>>)

  /** Characters the regular-expression `.` does not match. */
  predicate IsLineTerminator(c: char) {
    c == '\n' || c == '\r' || c == '\U{2028}' || c == '\U{2029}'
  }

  predicate NoLineTerminator(s: string) {
    forall k :: 0 <= k < |s| ==> !IsLineTerminator(s[k])
  }

  /** `w` occurs in `p` at position `i`. */
  predicate StartsAt(p: string, i: nat, w: string) {
    i + |w| <= |p| && p[i..i + |w|] == w
  }

  /** `c` is what `clothing-images\/(.+)` captures when its match starts at `k`:
      a non-empty run of non-terminators after the bucket directory that the
      greedy `.+` cannot extend. */
  predicate CapturedAt(p: string, k: nat, c: string) {
    var j := k + |BucketDir|;
    StartsAt(p, k, BucketDir) && c != "" && NoLineTerminator(c) && StartsAt(p, j, c)
    && (j + |c| == |p| || IsLineTerminator(p[j + |c|]))
  }

  /** Length of the longest run of non-terminators starting at `i`. */
  function RunLength(p: string, i: nat): (n: nat)
    requires i <= |p|
    ensures i + n <= |p|
    ensures forall k :: i <= k < i + n ==> !IsLineTerminator(p[k])
    ensures i + n == |p| || IsLineTerminator(p[i + n])
    decreases |p| - i
  {
    if i == |p| || IsLineTerminator(p[i]) then 0 else 1 + RunLength(p, i + 1)
  }

  /** The tail `clothing-images\/(.+)` of the pattern tried at position `k`. */
  function TailAt(p: string, k: nat): (r: Option<string>)
    ensures r.Some? <==> StartsAt(p, k, BucketDir) && k + |BucketDir| < |p| && !IsLineTerminator(p[k + |BucketDir|])
    ensures r.Some? ==> CapturedAt(p, k, r.value)
  {
    var j := k + |BucketDir|;
    if StartsAt(p, k, BucketDir) && j < |p| && !IsLineTerminator(p[j]) then
      var c := p[j..j + RunLength(p, j)];
      assert p[j..j + |c|] == c;
      Some(c)
    else
      None
  }

  /** The whole pattern `\/storage\/v1\/object\/(public\/|sign\/)?clothing-images\/(.+)`
      tried at position `i`, with the optional group tried first, in the order of
      its alternatives, and skipped last, as a backtracking matcher does. */
  function MatchAt(p: string, i: nat): (r: Option<string>)
    ensures r.Some? ==> i + |StoragePrefix| + |BucketDir| < |p| && p[i] == '/'
    ensures r.Some? ==> exists k :: CapturedAt(p, k, r.value)
  {
    if !StartsAt(p, i, StoragePrefix) then None
    else
      var j := i + |StoragePrefix|;
      assert p[i] == p[i..i + |StoragePrefix|][0];
      if StartsAt(p, j, PublicInfix) && TailAt(p, j + |PublicInfix|).Some? then TailAt(p, j + |PublicInfix|)
      else if StartsAt(p, j, SignInfix) && TailAt(p, j + |SignInfix|).Some? then TailAt(p, j + |SignInfix|)
      else TailAt(p, j)
  }

  /** `String.prototype.match` with a non-global pattern: the leftmost match. */
  function SearchFrom(p: string, i: nat): (r: Option<string>)
    requires i <= |p|
    ensures r.Some? ==> exists k :: CapturedAt(p, k, r.value)
    decreases |p| - i
  {
    match MatchAt(p, i)
    case Some(c) => Some(c)
    case None => if i == |p| then None else SearchFrom(p, i + 1)
  }

  /** extractStoragePath: the object path inside the bucket, or null. It never
      throws: an unparsable URL yields null. */
  function ExtractStoragePath(u: UrlParse): (r: Option<string>)
    ensures u.Invalid? ==> r.None?
    ensures r.Some? ==> r.value != "" && NoLineTerminator(r.value)
    ensures r.Some? ==> exists k :: CapturedAt(u.path, k, r.value)
  {
    match u
    case Invalid => None
    case Pathname(p) => SearchFrom(p, 0)
  }

  /** getSignedUrl: the store's signed URL, or null on an error or a throw. */
  function GetSignedUrl(path: string, expiresIn: int, sign: (string, int) -> Remote<string>): (r: Option<string>)
    ensures r.None? <==> sign(path, expiresIn).Err?
    ensures r.Some? ==> r.value == sign(path, expiresIn).value
  {
    match sign(path, expiresIn)
    case Ok(url) => Some(url)
    case Err(_) => None
  }

  /** getSignedUrls: on an error or a throw, one null per requested path. On
      success the store's answer is passed through as it is. */
  function GetSignedUrls(paths: seq<string>, expiresIn: int,
                         signAll: (seq<string>, int) -> Remote<seq<Option<string>>>): (r: seq<Option<string>>)
    ensures signAll(paths, expiresIn).Err? ==> |r| == |paths| && forall i :: 0 <= i < |r| ==> r[i].None?
    ensures signAll(paths, expiresIn).Ok? ==> r == signAll(paths, expiresIn).value
  {
    match signAll(paths, expiresIn)
    case Ok(urls) => urls
    case Err(_) => seq(|paths|, _ => None)
  }

  /** The refresh both catalog loaders apply to a stored image URL: the URL is
      replaced by a fresh signed URL only when it is present and non-empty, its
      storage path extracts and signing gives a non-empty URL; otherwise it is
      kept as it is (an absent URL stays absent). */
  function RefreshImageUrl(url: Option<string>, svc: Services): (r: Option<string>)
    ensures url.None? ==> r.None?
    ensures r.Some? ==> url.Some?
    ensures r != url ==>
      (Truthy(url) && Truthy(r)
       && ExtractStoragePath(svc.parseUrl(url.value)).Some?
       && r == GetSignedUrl(ExtractStoragePath(svc.parseUrl(url.value)).value, DefaultExpiry, svc.createSignedUrl))
    ensures (Truthy(url) && ExtractStoragePath(svc.parseUrl(url.value)).Some?
             && Truthy(GetSignedUrl(ExtractStoragePath(svc.parseUrl(url.value)).value, DefaultExpiry, svc.createSignedUrl)))
      ==> r == GetSignedUrl(ExtractStoragePath(svc.parseUrl(url.value)).value, DefaultExpiry, svc.createSignedUrl)
  {
    if !Truthy(url) then url
    else
      match ExtractStoragePath(svc.parseUrl(url.value))
      case None => url
      case Some(path) =>
        var signed := GetSignedUrl(path, DefaultExpiry, svc.createSignedUrl);
        if Truthy(signed) then signed else url
  }

  // ----- properties of the path extraction -----

  lemma {:induction false} RunLengthToEnd(p: string, i: nat)
    requires i <= |p| && forall k :: i <= k < |p| ==> !IsLineTerminator(p[k])
    ensures RunLength(p, i) == |p| - i
    decreases |p| - i
  {
    if i < |p| {
      RunLengthToEnd(p, i + 1);
    }
  }

  /** `w` occurs right after `a` in `a + w + rest`. */
  lemma StartsAtAfter(a: string, w: string, rest: string)
    ensures StartsAt(a + w + rest, |a|, w)
  {
    assert (a + w + rest)[|a|..|a| + |w|] == w;
  }

  /** The tail matches a path that runs to the end of the pathname. */
  lemma TailAtSuffix(p: string, k: nat, path: string)
    requires StartsAt(p, k, BucketDir) && k + |BucketDir| <= |p| && p[k + |BucketDir|..] == path
    requires path != "" && NoLineTerminator(path)
    ensures TailAt(p, k) == Some(path)
  {
    var t := k + |BucketDir|;
    RunLengthToEnd(p, t);
    assert p[t] == path[0];
    assert p[t..t + RunLength(p, t)] == p[t..];
  }

  /** The first character of an occurrence. */
  lemma StartsAtHead(p: string, i: nat, w: string)
    requires StartsAt(p, i, w) && w != ""
    ensures i < |p| && p[i] == w[0]
  {
    assert p[i] == p[i..i + |w|][0];
  }

  /** The whole pattern matches at `0` once its three pieces are in place. */
  lemma MatchAtStart(p: string, infix: string, path: string)
    requires infix == PublicInfix || infix == SignInfix || infix == ""
    requires StartsAt(p, 0, StoragePrefix) && StartsAt(p, |StoragePrefix|, infix)
    requires TailAt(p, |StoragePrefix| + |infix|) == Some(path)
    ensures MatchAt(p, 0) == Some(path)
  {
    var j := |StoragePrefix|;
    if infix == "" {
      StartsAtHead(p, j, BucketDir);
      assert !StartsAt(p, j, PublicInfix) by {
        if StartsAt(p, j, PublicInfix) { StartsAtHead(p, j, PublicInfix); }
      }
      assert !StartsAt(p, j, SignInfix) by {
        if StartsAt(p, j, SignInfix) { StartsAtHead(p, j, SignInfix); }
      }
    } else if infix == SignInfix {
      StartsAtHead(p, j, SignInfix);
      assert !StartsAt(p, j, PublicInfix) by {
        if StartsAt(p, j, PublicInfix) { StartsAtHead(p, j, PublicInfix); }
      }
    }
  }

  /** A URL built by the object store (public, signed, or plain object form)
      gives back the object path it was built from. */
  lemma ExtractRoundTrip(infix: string, path: string)
    requires infix == PublicInfix || infix == SignInfix || infix == ""
    requires path != "" && NoLineTerminator(path)
    ensures ExtractStoragePath(Pathname(StoragePrefix + infix + BucketDir + path)) == Some(path)
  {
    var tail := BucketDir + path;
    var p := StoragePrefix + infix + tail;
    assert p == StoragePrefix + infix + BucketDir + path;
    var j := |StoragePrefix|;
    var k := j + |infix|;
    StartsAtAfter([], StoragePrefix, infix + tail);
    assert StartsAt(p, 0, StoragePrefix);
    StartsAtAfter(StoragePrefix, infix, tail);
    StartsAtAfter(StoragePrefix + infix, BucketDir, path);
    assert p[k + |BucketDir|..] == path;
    TailAtSuffix(p, k, path);
    MatchAtStart(p, infix, path);
  }

  /** Concatenated occurrences. */
  lemma StartsAtConcat(p: string, i: nat, a: string, b: string)
    requires StartsAt(p, i, a) && StartsAt(p, i + |a|, b)
    ensures StartsAt(p, i, a + b)
  {
    assert p[i..i + |a| + |b|] == p[i..i + |a|] + p[i + |a|..i + |a| + |b|];
  }

  /** Wherever the pattern matches, one of the three full prefixes occurs there. */
  lemma MatchAtNeedsPrefix(p: string, i: nat)
    requires MatchAt(p, i).Some?
    ensures StartsAt(p, i, StoragePrefix + BucketDir)
         || StartsAt(p, i, StoragePrefix + PublicInfix + BucketDir)
         || StartsAt(p, i, StoragePrefix + SignInfix + BucketDir)
  {
    var j := i + |StoragePrefix|;
    if StartsAt(p, j, PublicInfix) && TailAt(p, j + |PublicInfix|).Some? {
      StartsAtConcat(p, i, StoragePrefix, PublicInfix);
      StartsAtConcat(p, i, StoragePrefix + PublicInfix, BucketDir);
    } else if StartsAt(p, j, SignInfix) && TailAt(p, j + |SignInfix|).Some? {
      StartsAtConcat(p, i, StoragePrefix, SignInfix);
      StartsAtConcat(p, i, StoragePrefix + SignInfix, BucketDir);
    } else {
      StartsAtConcat(p, i, StoragePrefix, BucketDir);
    }
  }

  /** No match at or after `i` means no result from `i`. */
  lemma {:induction false} SearchFromNone(p: string, i: nat)
    requires i <= |p|
    requires forall k :: i <= k <= |p| ==> MatchAt(p, k).None?
    ensures SearchFrom(p, i).None?
    decreases |p| - i
  {
    if i < |p| {
      SearchFromNone(p, i + 1);
    }
  }

  /** The search finds the leftmost match: when position `k` matches and no
      position from `i` up to `k` does, the result is the capture at `k`. */
  lemma {:induction false} SearchFromLeftmost(p: string, i: nat, k: nat)
    requires i <= k <= |p|
    requires MatchAt(p, k).Some?
    requires forall j :: i <= j < k ==> MatchAt(p, j).None?
    ensures SearchFrom(p, i) == MatchAt(p, k)
    decreases k - i
  {
    if i < k {
      SearchFromLeftmost(p, i + 1, k);
    }
  }

  /** A pathname in which none of the three bucket prefixes occurs yields null. */
  lemma ExtractRejectsUnprefixed(p: string)
    requires forall i :: 0 <= i <= |p| ==>
      !StartsAt(p, i, StoragePrefix + BucketDir)
      && !StartsAt(p, i, StoragePrefix + PublicInfix + BucketDir)
      && !StartsAt(p, i, StoragePrefix + SignInfix + BucketDir)
    ensures ExtractStoragePath(Pathname(p)).None?
  {
    forall k | 0 <= k <= |p| ensures MatchAt(p, k).None? {
      if MatchAt(p, k).Some? {
        MatchAtNeedsPrefix(p, k);
      }
    }
    SearchFromNone(p, 0);
  }

  /** At the start of such a pathname the tail has nothing left to capture. */
  lemma EmptyRemainderNoMatchAtStart(infix: string)
    requires infix == PublicInfix || infix == SignInfix || infix == ""
    ensures MatchAt(StoragePrefix + infix + BucketDir, 0).None?
  {
    var p := StoragePrefix + infix + BucketDir;
    var j := |StoragePrefix|;
    assert p[..j] == StoragePrefix;
    assert p[j..j + |infix|] == infix;
    assert p[j + |infix|..] == BucketDir;
    if infix == "" {
      assert p[j] == 'c';
      assert !StartsAt(p, j, PublicInfix) by { assert PublicInfix[0] == 'p'; }
      assert !StartsAt(p, j, SignInfix) by { assert SignInfix[0] == 's'; }
    } else if infix == SignInfix {
      assert !StartsAt(p, j, PublicInfix) by { assert PublicInfix[0] == 'p'; assert p[j] == 's'; }
      assert !StartsAt(p, j, BucketDir) by { assert BucketDir[0] == 'c'; assert p[j] == 's'; }
    } else {
      assert !StartsAt(p, j, BucketDir) by { assert BucketDir[0] == 'c'; assert p[j] == 'p'; }
    }
  }

  /** A pathname that stops right after `clothing-images/` yields null: the
      captured remainder must be non-empty. */
  lemma ExtractRejectsEmptyRemainder(infix: string)
    requires infix == PublicInfix || infix == SignInfix || infix == ""
    ensures ExtractStoragePath(Pathname(StoragePrefix + infix + BucketDir)).None?
  {
    var p := StoragePrefix + infix + BucketDir;
    assert p[..|StoragePrefix|] == StoragePrefix;
    assert |p| <= |StoragePrefix| + |PublicInfix| + |BucketDir|;
    forall k | 0 <= k <= |p| ensures MatchAt(p, k).None? {
      if k == 0 {
        EmptyRemainderNoMatchAtStart(infix);
      } else if k < 8 {
        NoSlashInStorage(p, k);
      }
    }
    SearchFromNone(p, 0);
  }

  /** Positions 1 to 7 of a pathname starting with the storage prefix hold
      the letters of `storage`, where no match can start. */
  lemma NoSlashInStorage(p: string, k: nat)
    requires |StoragePrefix| <= |p| && p[..|StoragePrefix|] == StoragePrefix
    requires 1 <= k < 8
    ensures MatchAt(p, k).None?
  {
    assert p[1..8] == StoragePrefix[1..8] == "storage";
    assert p[k] == p[1..8][k - 1];
  }
}
