/** The image upload queue (src/components/ImageUploader.tsx): the drop
    filter and cap, removal by index, the per-index status updates of an
    upload run, the completion callback, and the derived button states. */
module ImageUploader {
  import opened Wrappers
  import opened Seqs
  import Text

  /** What the component reads of a dropped file. */
  datatype FileInfo = FileInfo(name: string, mimeType: string, size: nat)

  /** One queued image; `preview` is the object URL made for the file. */
  datatype UploadedImage = UploadedImage(
    file: FileInfo,
    preview: string,
    url: Option<string>,
    uploading: bool,
    error: Option<string>)

  const MaxFileSize: nat := 10 * 1024 * 1024
  const DefaultMaxFiles: int := 2
  const UploadFailedMessage: string := "Upload failed"

  /** The drop filter: an image MIME type and at most 10 MiB. */
  predicate Acceptable(f: FileInfo) {
    Text.StartsWith(f.mimeType, "image/") && f.size <= MaxFileSize
  }

  /** The size limit is inclusive, and a type outside `image/` is refused
      whatever the file's name or size. */
  lemma AcceptableBounds(f: FileInfo)
    ensures f.size > MaxFileSize ==> !Acceptable(f)
    ensures Acceptable(FileInfo(f.name, "image/" + f.mimeType, MaxFileSize))
    ensures Acceptable(f) ==> |f.mimeType| >= 6 && f.mimeType[..6] == "image/"
  {
    var g := FileInfo(f.name, "image/" + f.mimeType, MaxFileSize);
    assert g.mimeType[..6] == "image/";
  }

  /** `s.slice(0, end)`: a negative `end` counts from the end of `s`. */
  function SliceTo<T>(s: seq<T>, end: int): (r: seq<T>)
    ensures |r| <= |s| && r == s[..|r|]
    ensures 0 <= end ==> |r| == if end < |s| then end else |s|
    ensures end < 0 ==> |r| == if |s| + end < 0 then 0 else |s| + end
  {
    if 0 <= end then (if end < |s| then s[..end] else s)
    else if |s| + end < 0 then []
    else s[..|s| + end]
  }

  /** A freshly queued image: not uploading, no URL, no error. */
  function Queued(f: FileInfo, previewOf: FileInfo -> string): UploadedImage {
    UploadedImage(f, previewOf(f), None, false, None)
  }

  function QueuedAll(files: seq<FileInfo>, previewOf: FileInfo -> string): (r: seq<UploadedImage>)
    ensures |r| == |files|
    ensures forall i :: 0 <= i < |r| ==> r[i] == Queued(files[i], previewOf)
  {
    seq(|files|, i requires 0 <= i < |files| => Queued(files[i], previewOf))
  }

  /** The upload run's first step for one image. */
  function StartUpload(img: UploadedImage): UploadedImage {
    img.(uploading := true, error := None)
  }

  /** The upload run's last step for one image, given the storage answer
      (the public URL, or the failure). */
  function FinishUpload(img: UploadedImage, answer: Remote<string>): (r: UploadedImage)
    ensures r.file == img.file && r.preview == img.preview && !r.uploading
    ensures answer.Ok? ==> r.url == Some(answer.value) && r.error == img.error
    ensures answer.Err? ==> r.url == img.url && r.error == Some(answer.message.GetOr(UploadFailedMessage))
  {
    match answer
    case Ok(u) => img.(url := Some(u), uploading := false)
    case Err(m) => img.(uploading := false, error := Some(m.GetOr(UploadFailedMessage)))
  }

  /** The final state of image `i` after a run: untouched when it already has
      a URL, otherwise started and then finished with its answer. */
  function AfterRun(img: UploadedImage, answer: Remote<string>): (r: UploadedImage)
    ensures Truthy(img.url) ==> r == img
    ensures !Truthy(img.url) ==> r.file == img.file && r.preview == img.preview && !r.uploading
    ensures !Truthy(img.url) && answer.Ok? ==> r.url == Some(answer.value) && r.error == None
    ensures !Truthy(img.url) && answer.Err? ==>
      r.url == img.url && r.error == Some(answer.message.GetOr(UploadFailedMessage))
  {
    if Truthy(img.url) then img else FinishUpload(StartUpload(img), answer)
  }

  /** The whole queue after a run. */
  function AfterRunAll(imgs: seq<UploadedImage>, upload: nat -> Remote<string>): (r: seq<UploadedImage>)
    ensures |r| == |imgs|
    ensures forall i :: 0 <= i < |r| ==> r[i] == AfterRun(imgs[i], upload(i))
  {
    seq(|imgs|, i requires 0 <= i < |imgs| => AfterRun(imgs[i], upload(i)))
  }

  /** What the per-image promise settles to: the URL it resolves to, or
      None when it rejects. An image that has a URL resolves to it. */
  function Settled(img: UploadedImage, answer: Remote<string>): (r: Option<string>)
    ensures Truthy(img.url) ==> r == img.url
    ensures !Truthy(img.url) ==> (r.Some? <==> answer.Ok?) && (answer.Ok? ==> r == Some(answer.value))
  {
    if Truthy(img.url) then img.url
    else if answer.Ok? then Some(answer.value)
    else None
  }

  /** The settled values of a whole run, in image order. */
  function SettledAll(imgs: seq<UploadedImage>, upload: nat -> Remote<string>): (r: seq<Option<string>>)
    ensures |r| == |imgs|
    ensures forall i :: 0 <= i < |r| ==> r[i] == Settled(imgs[i], upload(i))
  {
    seq(|imgs|, i requires 0 <= i < |imgs| => Settled(imgs[i], upload(i)))
  }

  /** `Promise.all` resolves: no promise rejected. */
  predicate AllResolved(results: seq<Option<string>>) {
    forall i :: 0 <= i < |results| ==> results[i].Some?
  }

  /** The run resolves exactly when every image without a URL was uploaded. */
  lemma AllResolvedIff(imgs: seq<UploadedImage>, upload: nat -> Remote<string>)
    ensures AllResolved(SettledAll(imgs, upload))
            <==> forall i :: 0 <= i < |imgs| && !Truthy(imgs[i].url) ==> upload(i).Ok?
  {
    var r := SettledAll(imgs, upload);
    if forall i :: 0 <= i < |imgs| && !Truthy(imgs[i].url) ==> upload(i).Ok? {
      assert forall i :: 0 <= i < |r| ==> r[i] == Settled(imgs[i], upload(i)) && r[i].Some?;
    }
  }

  /** `filter(Boolean)` over the resolved values: the non-empty URLs, in order. */
  function ValidUrls(results: seq<Option<string>>): (r: seq<string>)
    ensures forall k :: 0 <= k < |r| ==> r[k] != ""
    ensures forall u :: u in r <==> u != "" && Some(u) in results
  {
    if results == [] then []
    else
      (if results[0].Some? && results[0].value != "" then [results[0].value] else [])
      + ValidUrls(results[1..])
  }

  /** `ValidUrls` is `filter(Boolean)` itself: the truthy results, every one
      of them, in their order, unwrapped. */
  lemma {:induction false} ValidUrlsIsFilter(results: seq<Option<string>>)
    ensures |ValidUrls(results)| == |Filter(results, Truthy)|
    ensures forall k :: 0 <= k < |ValidUrls(results)| ==> Filter(results, Truthy)[k] == Some(ValidUrls(results)[k])
  {
    if results != [] {
      ValidUrlsIsFilter(results[1..]);
      if Truthy(results[0]) {
        assert ValidUrls(results) == [results[0].value] + ValidUrls(results[1..]);
        assert Filter(results, Truthy) == [results[0]] + Filter(results[1..], Truthy);
      } else {
        assert ValidUrls(results) == ValidUrls(results[1..]);
        assert Filter(results, Truthy) == Filter(results[1..], Truthy);
      }
    }
  }

  /** Index `k` holds the first truthy result. */
  predicate FirstUrlAt(results: seq<Option<string>>, k: int) {
    0 <= k < |results| && Truthy(results[k]) && forall j :: 0 <= j < k ==> !Truthy(results[j])
  }

  /** Index `k2` holds the next truthy result after index `k1`. */
  predicate NextUrlAt(results: seq<Option<string>>, k1: int, k2: int) {
    0 <= k1 < k2 < |results| && Truthy(results[k2]) && forall j :: k1 < j < k2 ==> !Truthy(results[j])
  }

  /** The first valid URL is the value of the first truthy result. */
  lemma {:induction false} FirstValidUrl(results: seq<Option<string>>)
    requires |ValidUrls(results)| > 0
    ensures exists k :: FirstUrlAt(results, k) && results[k] == Some(ValidUrls(results)[0])
  {
    if Truthy(results[0]) {
      assert FirstUrlAt(results, 0);
    } else {
      assert ValidUrls(results) == ValidUrls(results[1..]);
      FirstValidUrl(results[1..]);
      var k :| FirstUrlAt(results[1..], k) && results[1..][k] == Some(ValidUrls(results[1..])[0]);
      forall j | 0 <= j < k + 1 ensures !Truthy(results[j]) {
        if j > 0 {
          assert results[j] == results[1..][j - 1];
        }
      }
      assert FirstUrlAt(results, k + 1);
    }
  }

  /** The second valid URL is the value of the truthy result that follows the first one. */
  lemma {:induction false} SecondValidUrl(results: seq<Option<string>>)
    requires |ValidUrls(results)| > 1
    ensures exists k1, k2 :: FirstUrlAt(results, k1) && NextUrlAt(results, k1, k2)
                             && results[k2] == Some(ValidUrls(results)[1])
  {
    if Truthy(results[0]) {
      assert FirstUrlAt(results, 0);
      assert ValidUrls(results) == [results[0].value] + ValidUrls(results[1..]);
      FirstValidUrl(results[1..]);
      var k :| FirstUrlAt(results[1..], k) && results[1..][k] == Some(ValidUrls(results[1..])[0]);
      forall j | 0 < j < k + 1 ensures !Truthy(results[j]) {
        assert results[j] == results[1..][j - 1];
      }
      assert NextUrlAt(results, 0, k + 1);
    } else {
      assert ValidUrls(results) == ValidUrls(results[1..]);
      SecondValidUrl(results[1..]);
      var k1, k2 :| FirstUrlAt(results[1..], k1) && NextUrlAt(results[1..], k1, k2)
                    && results[1..][k2] == Some(ValidUrls(results[1..])[1]);
      forall j | 0 <= j < k2 + 1 && j != k1 + 1 ensures !Truthy(results[j]) {
        if j > 0 {
          assert results[j] == results[1..][j - 1];
        }
      }
      assert FirstUrlAt(results, k1 + 1);
      assert NextUrlAt(results, k1 + 1, k2 + 1);
    }
  }

  /** The two URLs handed to `onImagesUploaded`. */
  datatype Callback = Callback(front: string, back: Option<string>)

  /** The callback of a run: only when no promise rejected and at least one
      non-empty URL resulted; it gets the first and, if any, the second. */
  function CallbackFor(results: seq<Option<string>>): (c: Option<Callback>)
    ensures c.Some? <==> AllResolved(results) && |ValidUrls(results)| > 0
    ensures c.Some? ==> c.value.front == ValidUrls(results)[0] && c.value.front != ""
    ensures c.Some? ==> (c.value.back.Some? <==> |ValidUrls(results)| > 1)
    ensures c.Some? && c.value.back.Some? ==> c.value.back.value == ValidUrls(results)[1] && c.value.back.value != ""
  {
    var urls := ValidUrls(results);
    if AllResolved(results) && |urls| > 0
    then Some(Callback(urls[0], if |urls| > 1 then Some(urls[1]) else None))
    else None
  }

  /** The callback gets the first truthy result as the front URL and the
      next truthy result, if any, as the back URL. */
  lemma CallbackUrlsInOrder(results: seq<Option<string>>)
    requires CallbackFor(results).Some?
    ensures exists k :: FirstUrlAt(results, k) && results[k] == Some(CallbackFor(results).value.front)
    ensures CallbackFor(results).value.back.Some? ==>
      exists k1, k2 :: FirstUrlAt(results, k1) && NextUrlAt(results, k1, k2)
                       && results[k2] == CallbackFor(results).value.back
  {
    FirstValidUrl(results);
    if |ValidUrls(results)| > 1 {
      SecondValidUrl(results);
    }
  }

  /** Some image is uploading (`images.some(img => img.uploading)`). */
  function HasUploading(imgs: seq<UploadedImage>): (b: bool)
    ensures b <==> exists i :: 0 <= i < |imgs| && imgs[i].uploading
  {
    if imgs == [] then false
    else
      var rest := HasUploading(imgs[1..]);
      assert rest <==> exists i :: 1 <= i < |imgs| && imgs[i].uploading by {
        assert forall i :: 1 <= i < |imgs| ==> imgs[i] == imgs[1..][i - 1];
      }
      imgs[0].uploading || rest
  }

  /** Some image carries an error message. */
  function HasErrors(imgs: seq<UploadedImage>): (b: bool)
    ensures b <==> exists i :: 0 <= i < |imgs| && Truthy(imgs[i].error)
  {
    if imgs == [] then false
    else
      var rest := HasErrors(imgs[1..]);
      assert rest <==> exists i :: 1 <= i < |imgs| && Truthy(imgs[i].error) by {
        assert forall i :: 1 <= i < |imgs| ==> imgs[i] == imgs[1..][i - 1];
      }
      Truthy(imgs[0].error) || rest
  }

  /** Every image has a URL (`images.every(img => img.url)`). */
  function AllHaveUrls(imgs: seq<UploadedImage>): (b: bool)
    ensures b <==> forall i :: 0 <= i < |imgs| ==> Truthy(imgs[i].url)
  {
    if imgs == [] then true
    else
      var rest := AllHaveUrls(imgs[1..]);
      assert rest <==> forall i :: 1 <= i < |imgs| ==> Truthy(imgs[i].url) by {
        assert forall i :: 1 <= i < |imgs| ==> imgs[i] == imgs[1..][i - 1];
      }
      Truthy(imgs[0].url) && rest
  }

  /** The upload button's condition. */
  function CanUpload(imgs: seq<UploadedImage>): (b: bool)
    ensures b <==> |imgs| > 0 && (forall i :: 0 <= i < |imgs| ==> !imgs[i].uploading)
                   && exists i :: 0 <= i < |imgs| && !Truthy(imgs[i].url)
  {
    |imgs| > 0 && !HasUploading(imgs) && !AllHaveUrls(imgs)
  }

  /** The queue's state; `maxFiles` is the component's property. */
  class Uploader {
    const maxFiles: int
    var images: seq<UploadedImage>

    constructor (maxFiles: int := DefaultMaxFiles)
      ensures this.maxFiles == maxFiles && images == []
    {
      this.maxFiles := maxFiles;
      images := [];
    }

    /** onDrop: the acceptable files, in drop order, cut to the room left
        under `maxFiles`, are queued at the end. */
    method OnDrop(files: seq<FileInfo>, previewOf: FileInfo -> string) returns (added: seq<FileInfo>)
      modifies this`images
      ensures added == SliceTo(Filter(files, Acceptable), maxFiles - |old(images)|)
      ensures forall f :: f in added ==> Acceptable(f) && f in files
      ensures images == old(images) + QueuedAll(added, previewOf)
      ensures |old(images)| <= maxFiles ==> |images| <= maxFiles
    {
      var valid := Filter(files, Acceptable);
      added := SliceTo(valid, maxFiles - |images|);
      assert forall f :: f in added ==> f in valid;
      images := images + QueuedAll(added, previewOf);
    }

    /** removeImage: the entry at `index` goes, the others keep their order.
        Returns the preview URL that is revoked. */
    method RemoveImage(index: nat) returns (revoked: string)
      requires index < |images|
      modifies this`images
      ensures revoked == old(images)[index].preview
      ensures images == old(images)[..index] + old(images)[index + 1..]
      ensures |images| == |old(images)| - 1
    {
      revoked := images[index].preview;
      images := images[..index] + images[index + 1..];
    }

    /** uploadImages. `user` is the signed-in user's id; `upload(i)` is the
        storage answer for image `i`. Images that already have a URL are not
        uploaded again; every other image is marked as uploading and then
        finished with its answer, each update touching its own index only.
        Returns the callback made, if any. */
    method UploadImages(user: Option<string>, upload: nat -> Remote<string>)
      returns (callback: Option<Callback>)
      modifies this`images
      ensures |old(images)| == 0 || user.None? ==> images == old(images) && callback.None?
      ensures |old(images)| > 0 && user.Some? ==>
        images == AfterRunAll(old(images), upload)
        && callback == CallbackFor(SettledAll(old(images), upload))
    {
      if |images| == 0 || user.None? {
        return None;
      }
      var results := UploadAll(upload);
      callback := CallbackFor(results);
    }

    /** `images.map(...)` awaited together: every image goes through
        `UploadOne`; returns what each promise settled to. */
    method UploadAll(upload: nat -> Remote<string>) returns (results: seq<Option<string>>)
      modifies this`images
      ensures images == AfterRunAll(old(images), upload)
      ensures results == SettledAll(old(images), upload)
    {
      ghost var before := images;
      results := [];
      var i := 0;
      while i < |images|
        invariant 0 <= i <= |images| && |images| == |before| && |results| == i
        invariant forall k :: 0 <= k < i ==> images[k] == AfterRun(before[k], upload(k))
        invariant forall k :: i <= k < |images| ==> images[k] == before[k]
        invariant forall k :: 0 <= k < i ==> results[k] == Settled(before[k], upload(k))
      {
        var settled := UploadOne(i, upload);
        results := results + [settled];
        i := i + 1;
      }
      assert images == AfterRunAll(before, upload);
      assert results == SettledAll(before, upload);
    }

    /** The per-image callback of the run: an image with a URL resolves to
        it untouched; otherwise it is marked as uploading, then finished with
        the storage answer, and resolves to the public URL, or rejects (None). */
    method UploadOne(index: nat, upload: nat -> Remote<string>) returns (settled: Option<string>)
      requires index < |images|
      modifies this`images
      ensures images == old(images)[index := AfterRun(old(images)[index], upload(index))]
      ensures settled == Settled(old(images)[index], upload(index))
    {
      var img := images[index];
      if Truthy(img.url) {
        return img.url;
      }
      images := images[index := StartUpload(img)];
      var answer := upload(index);
      images := images[index := FinishUpload(images[index], answer)];
      settled := if answer.Ok? then Some(answer.value) else None;
    }
  }

  /** Queued images never carry a URL, so a non-empty queue of freshly
      dropped images can be uploaded. */
  lemma FreshQueueCanUpload(files: seq<FileInfo>, previewOf: FileInfo -> string)
    requires |files| > 0
    ensures CanUpload(QueuedAll(files, previewOf))
  {
    var q := QueuedAll(files, previewOf);
    assert !Truthy(q[0].url);
  }

  /** After a run in which every upload succeeded with a non-empty URL, no
      image is uploading and every image has a URL, so the button is off. */
  lemma SuccessfulRunDisablesUpload(imgs: seq<UploadedImage>, upload: nat -> Remote<string>)
    requires forall i :: 0 <= i < |imgs| && !Truthy(imgs[i].url) ==> upload(i).Ok? && upload(i).value != ""
    requires forall i :: 0 <= i < |imgs| && Truthy(imgs[i].url) ==> !imgs[i].uploading
    ensures !CanUpload(AfterRunAll(imgs, upload)) && !HasUploading(AfterRunAll(imgs, upload))
  {
    var after := AfterRunAll(imgs, upload);
    forall i | 0 <= i < |after|
      ensures Truthy(after[i].url) && !after[i].uploading
    {
      if !Truthy(imgs[i].url) {
        assert after[i] == FinishUpload(StartUpload(imgs[i]), upload(i));
      }
    }
  }
}
