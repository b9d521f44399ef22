/** lib/document-utils.ts: does a stored blob URL look like a Cloudinary delivery URL? */
module DocumentUtils {
  import opened Wrappers
  import opened Text
  import MongoStorage

  /** The host in the pattern `res\.cloudinary\.com\/([^/]+)\/`, with its dots literal. */
  const HostName: string := "res.cloudinary.com"

  /** The literal part of the pattern: the host and the slash after it. */
  const DeliveryHost: string := HostName + "/"

  /** The pattern matches `s` with the host starting at `i` and the slash that
      closes the (non-empty, slash-free) cloud name at `j`. The pattern is not
      anchored, so `i` may be anywhere. */
  ghost predicate DeliveryMatch(s: string, i: int, j: int) {
    && OccursAt(s, DeliveryHost, i)
    && i + |DeliveryHost| < j < |s|
    && s[j] == '/'
    && forall k :: i + |DeliveryHost| <= k < j ==> s[k] != '/'
  }

  ghost predicate MatchesDeliveryPattern(s: string) {
    exists i, j :: DeliveryMatch(s, i, j)
  }

  /** After the host: one non-slash character, and a slash somewhere later. */
  predicate CloudNameThenSlash(s: string, p: nat) {
    p < |s| && s[p] != '/' && '/' in s[p + 1..]
  }

  /** Tries the pattern at every start position from `i` on. */
  function ScanFrom(s: string, i: nat): bool
    decreases |s| - i
  {
    if i + |DeliveryHost| >= |s| then false
    else (OccursAt(s, DeliveryHost, i) && CloudNameThenSlash(s, i + |DeliveryHost|)) || ScanFrom(s, i + 1)
  }

  /** A match at `i` exists exactly when a cloud name and a later slash follow the host. */
  lemma MatchAtStart(s: string, i: nat)
    requires OccursAt(s, DeliveryHost, i)
    ensures CloudNameThenSlash(s, i + |DeliveryHost|) <==> exists j :: DeliveryMatch(s, i, j)
  {
    var p := i + |DeliveryHost|;
    if CloudNameThenSlash(s, p) {
      var q :| 0 <= q < |s[p + 1..]| && s[p + 1..][q] == '/';
      var j := FirstSlash(s, p, p + 1 + q);
      assert DeliveryMatch(s, i, j);
    }
    if j :| DeliveryMatch(s, i, j) {
      assert s[p] != '/';
      assert s[p + 1..][j - p - 1] == '/';
    }
  }

  /** The first slash at or after `from`, given that one exists at `bound`. */
  lemma FirstSlash(s: string, from: nat, bound: nat) returns (j: nat)
    requires from <= bound < |s| && s[bound] == '/'
    ensures from <= j <= bound && s[j] == '/'
    ensures forall k :: from <= k < j ==> s[k] != '/'
    decreases bound - from
  {
    if s[from] == '/' {
      j := from;
    } else {
      j := FirstSlash(s, from + 1, bound);
    }
  }

  /** The scan finds a match exactly when the pattern matches at some start position from `i` on. */
  lemma {:induction false} ScanFromCorrect(s: string, i: nat)
    ensures ScanFrom(s, i) <==> exists m, j :: i <= m && DeliveryMatch(s, m, j)
    decreases |s| - i
  {
    if i + |DeliveryHost| >= |s| {
      if m, j :| i <= m && DeliveryMatch(s, m, j) {
        assert false;
      }
    } else {
      ScanFromCorrect(s, i + 1);
      if OccursAt(s, DeliveryHost, i) {
        MatchAtStart(s, i);
      }
      if m, j :| i <= m && DeliveryMatch(s, m, j) {
        if m == i {
          MatchAtStart(s, i);
        } else {
          assert i + 1 <= m;
        }
      }
    }
  }

  /** `isCloudinaryUrlValid`: false for a missing or empty URL, otherwise whether
      the unanchored pattern matches somewhere in it. */
  function IsCloudinaryUrlValid(url: Option<string>): (valid: bool)
    ensures valid <==> url.Some? && url.value != "" && MatchesDeliveryPattern(url.value)
  {
    match url
    case None => false
    case Some(s) =>
      ScanFromCorrect(s, 0);
      s != "" && ScanFrom(s, 0)
  }

  /** `hasValidCloudinaryStorage`: the record's own URL field decides. */
  function HasValidCloudinaryStorage(doc: MongoStorage.StoredRecord): (valid: bool)
    ensures valid <==> Truthy(doc.cloudinaryUrl) && MatchesDeliveryPattern(doc.cloudinaryUrl.value)
  {
    IsCloudinaryUrlValid(doc.cloudinaryUrl)
  }

  /** A valid URL always contains the host literally; the dots are not wildcards. */
  lemma ValidUrlContainsHost(s: string)
    requires IsCloudinaryUrlValid(Some(s))
    ensures Includes(s, DeliveryHost)
  {
    var i, j :| DeliveryMatch(s, i, j);
    assert 0 <= i <= |s| - |DeliveryHost| && OccursAt(s, DeliveryHost, i);
  }

  /** The character at index `k` of a concatenation of three strings. */
  lemma CharOfConcat(a: string, b: string, c: string, k: nat)
    requires k < |a| + |b| + |c|
    ensures (a + b + c)[k] ==
      if k < |a| then a[k] else if k < |a| + |b| then b[k - |a|] else c[k - |a| - |b|]
  {
  }

  /** The facts a match gives about the two slashes it needs. */
  lemma MatchSlashes(s: string, i: int, j: int)
    requires DeliveryMatch(s, i, j)
    ensures 0 <= i && s[i + |HostName|] == '/' && i + |HostName| + 1 < j < |s| && s[j] == '/'
  {
    assert s[i..i + |DeliveryHost|][|HostName|] == '/';
  }

  /** A match needs a slash at or after index 18 and a second one at least two
      places later; a string without such a pair is rejected. */
  lemma OneLateSlashIsInvalid(s: string)
    requires forall a, b :: |HostName| <= a && a + 1 < b < |s| && s[a] == '/' ==> s[b] != '/'
    ensures !IsCloudinaryUrlValid(Some(s))
  {
    if IsCloudinaryUrlValid(Some(s)) {
      var i, j :| DeliveryMatch(s, i, j);
      MatchSlashes(s, i, j);
    }
  }

  /** Dots in the host are literal: `resXcloudinaryYcom/a/` is rejected. */
  lemma HostDotsAreLiteral()
    ensures !IsCloudinaryUrlValid(Some("resXcloudinaryYcom/a/"))
  {
    var s := "resXcloudinaryYcom/a/";
    assert !ScanFrom(s, 2);
    assert DeliveryHost[3] == '.';
    assert s[1..1 + |DeliveryHost|][3] == s[4] == 'c';
    assert !ScanFrom(s, 1);
    assert s[0..|DeliveryHost|][3] == s[3] == 'X';
    assert !ScanFrom(s, 0);
  }

  /** A cloud name with no slash after it does not match, whatever short scheme
      precedes the host (`https://res.cloudinary.com/demo` is one such URL). */
  lemma {:induction false} CloudNameNeedsClosingSlash(scheme: string, cloudName: string)
    requires |scheme| <= |HostName| && '/' !in cloudName
    ensures !IsCloudinaryUrlValid(Some(scheme + DeliveryHost + cloudName))
  {
    var s := scheme + DeliveryHost + cloudName;
    var h := |scheme| + |HostName|;
    assert '/' !in HostName;
    forall a, b | |HostName| <= a && a + 1 < b < |s| && s[a] == '/' ensures s[b] != '/' {
      CharOfConcat(scheme, DeliveryHost, cloudName, a);
      CharOfConcat(scheme, DeliveryHost, cloudName, b);
      assert a == h;
    }
    OneLateSlashIsInvalid(s);
  }

  /** The host, a non-empty slash-free cloud name and a slash make a valid URL,
      whatever comes before or after them. */
  lemma {:induction false} DeliveryUrlIsValid(prefix: string, cloudName: string, rest: string)
    requires cloudName != [] && '/' !in cloudName
    ensures IsCloudinaryUrlValid(Some(prefix + DeliveryHost + cloudName + "/" + rest))
  {
    var s := prefix + DeliveryHost + cloudName + "/" + rest;
    var i := |prefix|;
    var j := i + |DeliveryHost| + |cloudName|;
    assert s[i..i + |DeliveryHost|] == DeliveryHost;
    forall k | i + |DeliveryHost| <= k < j ensures s[k] != '/' {
      assert s[k] == cloudName[k - i - |DeliveryHost|];
    }
    assert DeliveryMatch(s, i, j);
  }
}
