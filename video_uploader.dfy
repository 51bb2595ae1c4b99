/** components/VideoUploader.tsx: admitting a batch of selected files into the
    selection list, and removing one entry. Preview URLs are modelled as numbers
    drawn from a counter; `live` is the set of URLs created and not yet revoked. */
module VideoUploader {
  import opened Types
  import opened JsString
  import opened GeminiService

  /** `file.type.startsWith('video/')` */
  predicate IsVideo(f: MediaFile) {
    StartsWith(f.mimeType, "video/")
  }

  /** What the batch loop does with one file. */
  datatype Verdict = Accepted | Skipped | Dropped

  /** The per-file decision: non-videos are dropped without a word, videos over
      the size limit are skipped and named, the rest are accepted. */
  function Admit(f: MediaFile): (v: Verdict)
    ensures v == Accepted <==> IsVideo(f) && CheckFileSize(f)
    ensures v == Skipped <==> IsVideo(f) && !CheckFileSize(f)
    ensures v == Dropped <==> !IsVideo(f)
  {
    if !IsVideo(f) then Dropped
    else if !CheckFileSize(f) then Skipped
    else Accepted
  }

  /** The files of a batch that are accepted, in input order. */
  function AcceptedFiles(files: seq<MediaFile>): seq<MediaFile> {
    if files == [] then []
    else AcceptedFiles(files[..|files| - 1])
         + (if Admit(files[|files| - 1]) == Accepted then [files[|files| - 1]] else [])
  }

  /** The names of the files of a batch that are skipped, in input order. */
  function SkippedNames(files: seq<MediaFile>): seq<string> {
    if files == [] then []
    else SkippedNames(files[..|files| - 1])
         + (if Admit(files[|files| - 1]) == Skipped then [files[|files| - 1].name] else [])
  }

  /** How many files of a batch are dropped. */
  function DroppedCount(files: seq<MediaFile>): nat {
    if files == [] then 0
    else DroppedCount(files[..|files| - 1]) + (if Admit(files[|files| - 1]) == Dropped then 1 else 0)
  }

  /** Every file lands in exactly one of the three outcomes. */
  lemma {:induction false} BatchIsPartitioned(files: seq<MediaFile>)
    ensures |AcceptedFiles(files)| + |SkippedNames(files)| + DroppedCount(files) == |files|
  {
    if files != [] {
      BatchIsPartitioned(files[..|files| - 1]);
    }
  }

  /** Every accepted file is a video within the size limit. */
  lemma {:induction false} AcceptedAreAdmissible(files: seq<MediaFile>)
    ensures forall k :: 0 <= k < |AcceptedFiles(files)| ==>
      IsVideo(AcceptedFiles(files)[k]) && CheckFileSize(AcceptedFiles(files)[k])
  {
    if files != [] {
      AcceptedAreAdmissible(files[..|files| - 1]);
    }
  }

  /** The outcomes of a batch are those of its parts, in order: together with the
      one-file case this says that the batch loop is an order-preserving filter. */
  lemma {:induction false} OutcomesOfConcatenation(a: seq<MediaFile>, b: seq<MediaFile>)
    ensures AcceptedFiles(a + b) == AcceptedFiles(a) + AcceptedFiles(b)
    ensures SkippedNames(a + b) == SkippedNames(a) + SkippedNames(b)
    ensures DroppedCount(a + b) == DroppedCount(a) + DroppedCount(b)
    decreases |b|
  {
    if b == [] {
      assert a + b == a;
    } else {
      var last := |b| - 1;
      assert (a + b)[..|a + b| - 1] == a + b[..last];
      OutcomesOfConcatenation(a, b[..last]);
    }
  }

  /** A file that is not a video changes neither the accepted files nor the skipped names. */
  lemma NonVideoIsDroppedSilently(a: seq<MediaFile>, f: MediaFile, b: seq<MediaFile>)
    requires !IsVideo(f)
    ensures AcceptedFiles(a + [f] + b) == AcceptedFiles(a + b)
    ensures SkippedNames(a + [f] + b) == SkippedNames(a + b)
    ensures DroppedCount(a + [f] + b) == DroppedCount(a + b) + 1
  {
    OutcomesOfConcatenation(a + [f], b);
    OutcomesOfConcatenation(a, [f]);
    OutcomesOfConcatenation(a, b);
    assert [f][..0] == [];
  }

  /** The set of preview URLs of a list of entries. */
  function Urls(vs: seq<VideoFile>): set<Handle> {
    set v | v in vs :: v.previewUrl
  }

  /** No two entries share a preview URL. */
  predicate DistinctUrls(vs: seq<VideoFile>) {
    forall i, j :: 0 <= i < j < |vs| ==> vs[i].previewUrl != vs[j].previewUrl
  }

  /** Entries with distinct URLs own exactly as many URLs as there are entries. */
  lemma {:induction false} DistinctUrlsCount(vs: seq<VideoFile>)
    requires DistinctUrls(vs)
    ensures |Urls(vs)| == |vs|
  {
    if vs != [] {
      var init := vs[..|vs| - 1];
      var v := vs[|vs| - 1];
      assert vs == init + [v];
      assert Urls(vs) == Urls(init) + {v.previewUrl};
      assert v.previewUrl !in Urls(init) by {
        forall w | w in init ensures w.previewUrl != v.previewUrl {
          var k :| 0 <= k < |init| && init[k] == w;
        }
      }
      DistinctUrlsCount(init);
    }
  }

  /** Dropping entry `i` of a list with distinct URLs drops exactly its URL. */
  lemma UrlsWithout(vs: seq<VideoFile>, i: nat)
    requires DistinctUrls(vs) && i < |vs|
    ensures Urls(vs[..i] + vs[i + 1..]) == Urls(vs) - {vs[i].previewUrl}
    ensures DistinctUrls(vs[..i] + vs[i + 1..])
  {
    var rest := vs[..i] + vs[i + 1..];
    assert vs == vs[..i] + [vs[i]] + vs[i + 1..];
    forall w | w in rest ensures w.previewUrl != vs[i].previewUrl {
      var k :| 0 <= k < |rest| && rest[k] == w;
      if k < i { assert rest[k] == vs[k]; } else { assert rest[k] == vs[k + 1]; }
    }
    forall j, k | 0 <= j < k < |rest| ensures rest[j].previewUrl != rest[k].previewUrl {
      var j' := if j < i then j else j + 1;
      var k' := if k < i then k else k + 1;
      assert rest[j] == vs[j'] && rest[k] == vs[k'];
    }
  }

  /** The entries a batch adds when preview URLs are handed out from `start`:
      the accepted files in order, the k-th with URL `start + k`. */
  function Admitted(files: seq<MediaFile>, start: nat): (vs: seq<VideoFile>)
    ensures |vs| == |AcceptedFiles(files)|
  {
    var accepted := AcceptedFiles(files);
    seq(|accepted|, k requires 0 <= k < |accepted| => VideoFile(accepted[k], start + k))
  }

  /** One more file extends the admitted entries by at most that file. */
  lemma AdmittedStep(files: seq<MediaFile>, start: nat)
    requires files != []
    ensures var init := files[..|files| - 1];
      Admitted(files, start) == Admitted(init, start)
        + if Admit(files[|files| - 1]) == Accepted
          then [VideoFile(files[|files| - 1], start + |Admitted(init, start)|)] else []
  {
  }

  /** Appending entries whose URLs are numbered upward from a bound above every
      existing URL keeps the URLs distinct. */
  lemma AppendFreshUrls(vs: seq<VideoFile>, added: seq<VideoFile>, start: nat)
    requires DistinctUrls(vs) && forall v :: v in vs ==> v.previewUrl < start
    requires forall k :: 0 <= k < |added| ==> added[k].previewUrl == start + k
    ensures DistinctUrls(vs + added) && Urls(vs + added) == Urls(vs) + Urls(added)
    ensures (vs + added)[..|vs|] == vs
  {
    var all := vs + added;
    forall j, k | 0 <= j < k < |all| ensures all[j].previewUrl != all[k].previewUrl {
      var n := |vs|;
      if j < n {
        assert all[j] in vs;
        if k >= n {
          assert all[k] == added[k - n];
        }
      } else {
        assert all[j] == added[j - n] && all[k] == added[k - n];
      }
    }
    assert all[..|vs|] == vs;
  }

  /** The selection list: the `videos` state of the application together with
      the preview URLs the browser keeps alive for it. */
  class VideoList {
    var entries: seq<VideoFile>
    var live: set<Handle>
    var nextHandle: nat

    /** Each entry owns exactly one live URL, and every live URL belongs to an entry;
        URLs still to be handed out are above every URL seen so far. */
    ghost predicate Valid()
      reads this
    {
      live == Urls(entries) && DistinctUrls(entries)
      && (forall h :: h in live ==> h < nextHandle)
    }

    constructor ()
      ensures Valid() && entries == [] && live == {}
    {
      entries := [];
      live := {};
      nextHandle := 0;
    }

    /** No preview URL leaks: there are exactly as many live URLs as entries. */
    lemma LiveMatchesEntries()
      requires Valid()
      ensures |live| == |entries|
    {
      DistinctUrlsCount(entries);
    }

    /** `URL.createObjectURL`: a URL not handed out before, now live. */
    method CreateObjectUrl() returns (h: Handle)
      requires forall x :: x in live ==> x < nextHandle
      modifies this`live, this`nextHandle
      ensures h == old(nextHandle) && h !in old(live)
      ensures nextHandle == old(nextHandle) + 1 && live == old(live) + {h}
      ensures forall x :: x in live ==> x < nextHandle
    {
      h := nextHandle;
      nextHandle := nextHandle + 1;
      live := live + {h};
    }

    /** `URL.revokeObjectURL` */
    method RevokeObjectUrl(h: Handle)
      modifies this`live
      ensures live == old(live) - {h}
    {
      live := live - {h};
    }

    /** The `forEach` over a batch: classify each file in order, collect the
        skipped names, and create one preview URL for each accepted file. */
    method ClassifyBatch(files: seq<MediaFile>) returns (newFiles: seq<VideoFile>, skipped: seq<string>)
      requires forall x :: x in live ==> x < nextHandle
      modifies this`live, this`nextHandle
      ensures skipped == SkippedNames(files)
      ensures newFiles == Admitted(files, old(nextHandle))
      ensures nextHandle == old(nextHandle) + |newFiles|
      ensures live == old(live) + Urls(newFiles)
      ensures forall x :: x in live ==> x < nextHandle
    {
      newFiles, skipped := [], [];
      ghost var start := nextHandle;
      var i := 0;
      while i < |files|
        invariant 0 <= i <= |files|
        invariant skipped == SkippedNames(files[..i])
        invariant newFiles == Admitted(files[..i], start)
        invariant nextHandle == start + |newFiles|
        invariant live == old(live) + Urls(newFiles)
        invariant forall x :: x in live ==> x < nextHandle
      {
        var file := files[i];
        assert files[..i + 1][..i] == files[..i];
        AdmittedStep(files[..i + 1], start);
        if !IsVideo(file) {
        } else if !CheckFileSize(file) {
          skipped := skipped + [file.name];
        } else {
          var previewUrl := CreateObjectUrl();
          var entry := VideoFile(file, previewUrl);
          assert Urls(newFiles + [entry]) == Urls(newFiles) + {previewUrl};
          newFiles := newFiles + [entry];
        }
        i := i + 1;
      }
      assert files[..i] == files;
    }

    /** `handleFileChange`: classify the batch, append the accepted files (each with
        its new preview URL) after the existing entries, and report the skipped
        names, with an alert exactly when there are any. */
    method HandleFileChange(files: seq<MediaFile>) returns (skipped: seq<string>, alerted: bool)
      requires Valid()
      modifies this
      ensures Valid()
      ensures skipped == SkippedNames(files) && (alerted <==> skipped != [])
      ensures entries == old(entries) + Admitted(files, old(nextHandle))
      ensures live == old(live) + Urls(Admitted(files, old(nextHandle)))
      ensures |live| == |old(live)| + |AcceptedFiles(files)|
      ensures forall v :: v in Admitted(files, old(nextHandle)) ==> v.previewUrl !in old(live)
      ensures nextHandle == old(nextHandle) + |AcceptedFiles(files)|
    {
      skipped, alerted := [], false;
      if |files| == 0 {
        return;
      }
      ghost var start := nextHandle;
      forall v | v in entries ensures v.previewUrl < start {
        assert v.previewUrl in Urls(entries);
      }
      var newFiles;
      newFiles, skipped := ClassifyBatch(files);
      alerted := |skipped| > 0;
      AppendFreshUrls(entries, newFiles, start);
      entries := entries + newFiles;
      LiveMatchesEntries();
      DistinctUrlsCount(old(entries));
    }

    /** `removeVideo`: revoke the URL of entry `index` and splice the entry out,
        keeping the others in order. */
    method RemoveVideo(index: nat)
      requires Valid() && index < |entries|
      modifies this`entries, this`live
      ensures Valid()
      ensures entries == old(entries[..index] + entries[index + 1..])
      ensures old(entries[index].previewUrl) in old(live)
      ensures live == old(live) - {old(entries[index].previewUrl)}
      ensures forall v :: v in entries ==> v.previewUrl != old(entries[index].previewUrl)
      ensures nextHandle == old(nextHandle) && old(entries[index].previewUrl) < nextHandle
    {
      RevokeObjectUrl(entries[index].previewUrl);
      UrlsWithout(entries, index);
      entries := entries[..index] + entries[index + 1..];
    }
  }

  /** A client of `VideoList`: once an entry is removed, its URL stays revoked and
      unused through any later selections, so it is released exactly once. */
  method RevokedUrlIsNeverReissued(list: VideoList, index: nat, first: seq<MediaFile>, second: seq<MediaFile>)
    requires list.Valid() && index < |list.entries|
    modifies list
    ensures list.Valid()
    ensures old(list.entries[index].previewUrl) !in list.live
    ensures forall v :: v in list.entries ==> v.previewUrl != old(list.entries[index].previewUrl)
  {
    var h := list.entries[index].previewUrl;
    list.RemoveVideo(index);
    var skipped, alerted := list.HandleFileChange(first);
    skipped, alerted := list.HandleFileChange(second);
  }
}
