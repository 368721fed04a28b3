/**
 Reporter posts: the image fingerprints stored with a post, and how an edit
 reuses them instead of fetching every image again.
 */
module HashReuse {
  import opened Prelude

  type Url = string
  type Hash = string

  /**
   The outside world of the fingerprint service: which images live on the image
   host (and are fetched), which of those can be fetched at all, and the digest
   of an image. Fingerprinting is a pure function of the URL.
   */
  datatype ImageWorld = ImageWorld(hosted: Url -> bool, fetchable: Url -> bool, digest: Url -> string)

  /** The fingerprint of one image; never empty, whatever the digest is. */
  function Fingerprint(w: ImageWorld, u: Url): (h: Hash)
    ensures h != ""
  {
    (if w.hosted(u) then "sha256:" else "url:") + w.digest(u)
  }

  predicate Verifiable(w: ImageWorld, u: Url) {
    w.hosted(u) ==> w.fetchable(u)
  }

  /** The fingerprints of all images, position by position. */
  function Fingerprints(w: ImageWorld, urls: seq<Url>): (hs: seq<Hash>)
    ensures |hs| == |urls|
  {
    seq(|urls|, i requires 0 <= i < |urls| => Fingerprint(w, urls[i]))
  }

  /** One unverifiable image fails the whole batch. */
  function FingerprintImages(w: ImageWorld, urls: seq<Url>): Option<seq<Hash>> {
    if forall u | u in urls :: Verifiable(w, u) then Some(Fingerprints(w, urls)) else None
  }

  /**
   What a stored row promises about its fingerprints: each one that is present
   (legacy rows may have fewer, or blanks) is the fingerprint of the image at
   its position.
   */
  predicate Consistent(w: ImageWorld, images: seq<Url>, hashes: seq<Hash>) {
    forall i :: 0 <= i < |images| && i < |hashes| && hashes[i] != "" ==> hashes[i] == Fingerprint(w, images[i])
  }

  /** The `known` map after the first n stored images; a later entry overwrites an earlier one. */
  function Known(images: seq<Url>, hashes: seq<Hash>, n: nat): map<Url, Hash>
    requires n <= |images|
  {
    if n == 0 then map[]
    else
      var m := Known(images, hashes, n - 1);
      if n - 1 < |hashes| && hashes[n - 1] != "" then m[images[n - 1] := hashes[n - 1]] else m
  }

  /** The images whose fingerprint is not yet known, repeats included. */
  function Missing(known: map<Url, Hash>, urls: seq<Url>): seq<Url> {
    if urls == [] then []
    else if urls[0] in known then Missing(known, urls[1..])
    else [urls[0]] + Missing(known, urls[1..])
  }

  lemma {:induction false} KnownIsTrue(w: ImageWorld, images: seq<Url>, hashes: seq<Hash>, n: nat)
    requires n <= |images| && Consistent(w, images, hashes)
    ensures forall u | u in Known(images, hashes, n) :: Known(images, hashes, n)[u] == Fingerprint(w, u)
  {
    if n > 0 {
      KnownIsTrue(w, images, hashes, n - 1);
    }
  }

  lemma {:induction false} MissingMembers(known: map<Url, Hash>, urls: seq<Url>)
    ensures forall u :: u in Missing(known, urls) <==> u in urls && u !in known
  {
    if urls != [] {
      MissingMembers(known, urls[1..]);
      assert urls == [urls[0]] + urls[1..];
    }
  }

  /** A known fingerprint is reused, any other image is fingerprinted. */
  function Lookup(w: ImageWorld, known: map<Url, Hash>, u: Url): Hash {
    if u in known then known[u] else Fingerprint(w, u)
  }

  /** The fingerprints an edit saves, or None when an image cannot be verified. */
  function SavedHashes(w: ImageWorld, storedImages: seq<Url>, storedHashes: seq<Hash>, images: seq<Url>)
    : Option<seq<Hash>>
  {
    var known := Known(storedImages, storedHashes, |storedImages|);
    if forall u | u in images :: u in known || Verifiable(w, u) then
      Some(seq(|images|, i requires 0 <= i < |images| => Lookup(w, known, images[i])))
    else
      None
  }

  /** The update handler's loops over the `known` map save exactly `SavedHashes`. */
  method ReuseHashes(w: ImageWorld, storedImages: seq<Url>, storedHashes: seq<Hash>, images: seq<Url>)
    returns (result: Option<seq<Hash>>)
    ensures result == SavedHashes(w, storedImages, storedHashes, images)
    ensures result.None? <==>
              exists u :: u in images && !Verifiable(w, u) && !HasStoredHash(storedImages, storedHashes, u)
    ensures result.Some? ==>
              |result.value| == |images| && forall i | 0 <= i < |images| ::
                SavedAs(w, storedImages, storedHashes, images[i], result.value[i])
  {
    SavedExactly(w, storedImages, storedHashes, images);
    var known: map<Url, Hash> := map[];
    for i := 0 to |storedImages|
      invariant known == Known(storedImages, storedHashes, i)
    {
      if i < |storedHashes| && storedHashes[i] != "" {
        known := known[storedImages[i] := storedHashes[i]];
      }
    }
    var missing := Missing(known, images);
    MissingMembers(known, images);
    var fetched := FingerprintImages(w, missing);
    if fetched.None? {
      return None;
    }
    ghost var stored := known;
    for i := 0 to |missing|
      invariant forall u | u in known :: known[u] == Lookup(w, stored, u)
      invariant forall u | u in stored :: u in known
      invariant forall k | 0 <= k < i :: missing[k] in known
    {
      known := known[missing[i] := fetched.value[i]];
    }
    result := Some([]);
    for i := 0 to |images|
      invariant result.Some? && |result.value| == i
      invariant forall k | 0 <= k < i :: result.value[k] == Lookup(w, stored, images[k])
    {
      assert images[i] in stored || images[i] in missing;
      result := Some(result.value + [known[images[i]]]);
    }
    ghost var saved := SavedHashes(w, storedImages, storedHashes, images);
    assert saved.Some?;
    assert result.value == saved.value;
  }

  /** The last fingerprint stored for the image, or a fresh one if none is. */
  ghost predicate SavedAs(w: ImageWorld, storedImages: seq<Url>, storedHashes: seq<Hash>, u: Url, saved: Hash) {
    if HasStoredHash(storedImages, storedHashes, u) then
      exists j ::
        0 <= j < |storedImages| && j < |storedHashes| && storedImages[j] == u && saved == storedHashes[j] != ""
        && forall m | j < m < |storedImages| && m < |storedHashes| && storedImages[m] == u :: storedHashes[m] == ""
    else saved == Fingerprint(w, u)
  }

  lemma SavedExactly(w: ImageWorld, storedImages: seq<Url>, storedHashes: seq<Hash>, images: seq<Url>)
    ensures var saved := SavedHashes(w, storedImages, storedHashes, images);
            && (saved.None? <==>
                  exists u :: u in images && !Verifiable(w, u) && !HasStoredHash(storedImages, storedHashes, u))
            && (saved.Some? ==>
                  |saved.value| == |images| && forall i | 0 <= i < |images| ::
                    SavedAs(w, storedImages, storedHashes, images[i], saved.value[i]))
  {
    KnownMembers(storedImages, storedHashes, |storedImages|);
    var known := Known(storedImages, storedHashes, |storedImages|);
    forall u ensures SavedAs(w, storedImages, storedHashes, u, Lookup(w, known, u)) {
      if u in known {
        var j := KnownIsLast(storedImages, storedHashes, |storedImages|, u);
      }
    }
  }

  lemma {:induction false} KnownIsLast(images: seq<Url>, hashes: seq<Hash>, n: nat, u: Url) returns (j: nat)
    requires n <= |images| && u in Known(images, hashes, n)
    ensures j < n && j < |hashes| && images[j] == u && Known(images, hashes, n)[u] == hashes[j] != ""
    ensures forall m | j < m < n && m < |hashes| && images[m] == u :: hashes[m] == ""
  {
    j := n - 1;
    if n - 1 >= |hashes| || hashes[n - 1] == "" || images[n - 1] != u {
      j := KnownIsLast(images, hashes, n - 1, u);
    }
  }

  /**
   Reuse is invisible: on a row whose stored fingerprints are right, the edit
   saves exactly what fingerprinting every image afresh gives, one per image,
   whatever was reordered, repeated or blank. It fails exactly when an image
   without a stored fingerprint is unverifiable, so never where a full
   re-fingerprint would succeed.
   */
  lemma ReuseIsRefingerprint(w: ImageWorld, storedImages: seq<Url>, storedHashes: seq<Hash>, images: seq<Url>)
    requires Consistent(w, storedImages, storedHashes)
    ensures var saved := SavedHashes(w, storedImages, storedHashes, images);
            && (saved.Some? ==> saved.value == Fingerprints(w, images))
            && (FingerprintImages(w, images).Some? ==> saved == FingerprintImages(w, images))
            && (saved.None? <==>
                  exists u :: u in images && !Verifiable(w, u) && !HasStoredHash(storedImages, storedHashes, u))
  {
    KnownIsTrue(w, storedImages, storedHashes, |storedImages|);
    SavedExactly(w, storedImages, storedHashes, images);
  }

  /** Some position of the stored row holds a fingerprint for this image. */
  ghost predicate HasStoredHash(images: seq<Url>, hashes: seq<Hash>, u: Url) {
    exists i :: 0 <= i < |images| && i < |hashes| && images[i] == u && hashes[i] != ""
  }

  lemma {:induction false} KnownMembers(images: seq<Url>, hashes: seq<Hash>, n: nat)
    requires n <= |images|
    ensures forall u :: u in Known(images, hashes, n) <==>
              exists i :: 0 <= i < n && i < |hashes| && images[i] == u && hashes[i] != ""
  {
    if n > 0 {
      KnownMembers(images, hashes, n - 1);
    }
  }
}
