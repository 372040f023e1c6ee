/** The photo vault (photo_vault_core.py): a picker guarded by a
    processing flag, an import that keeps each photo's own name and
    numbers it on a clash, and delete and export. `disk` is the set of
    paths that exist; whether a path is an image (a MIME guess and a PIL
    check) is a parameter. */
module PhotoVault {
  import opened Wrappers
  import opened Strings
  import Paths
  import Naming
  import Export

  const NotAnImage := " (not an image)"
  const PhotoNotFound := "Photo not found"

  /** An import clash tries "<stem> (n)<ext>" in the vault for n = 1, 2, ... */
  function ClashPrefix(vaultDir: string, original: string): string {
    Paths.Join(vaultDir, Paths.Root(original) + " (")
  }

  function ClashSuffix(original: string): string { ")" + Paths.Ext(original) }

  /** The counter's candidate is the vault path of the numbered name. */
  lemma ClashCandidate(vaultDir: string, original: string, n: nat)
    requires '/' !in original
    ensures Naming.Numbered(ClashPrefix(vaultDir, original), n, ClashSuffix(original))
         == Paths.Join(vaultDir, Paths.Root(original) + " (" + NatToString(n) + ")" + Paths.Ext(original))
  {
    StemNotRooted(original);
    NumberedJoin(vaultDir, Paths.Root(original), Paths.Ext(original), NatToString(n));
  }

  lemma StemNotRooted(original: string)
    requires '/' !in original
    ensures (Paths.Root(original) + " (")[0] != '/'
  {
    var root := Paths.Root(original);
    Paths.SplitExtOfName(original);
    if root != [] {
      assert (root + " (")[0] == root[0] && root[0] in root;
    }
  }

  /** The counter and suffix appended to the joined stem land at the end
      of the joined name. */
  lemma NumberedJoin(vaultDir: string, root: string, ext: string, num: string)
    requires (root + " (")[0] != '/'
    ensures Paths.Join(vaultDir, root + " (") + num + (")" + ext)
         == Paths.Join(vaultDir, root + " (" + num + ")" + ext)
  {
    var stem := root + " (";
    var more := num + (")" + ext);
    Paths.JoinAppend(vaultDir, stem, more);
    assert root + " (" + num + ")" + ext == stem + more;
  }

  /** Where an import of `path` is first tried. */
  function Destination(vaultDir: string, path: string): string {
    Paths.Join(vaultDir, Paths.Basename(path))
  }

  /** The selected paths that are images, in order. */
  function Images(paths: seq<string>, isImage: string -> bool): (r: seq<string>)
    ensures forall k :: 0 <= k < |r| ==> isImage(r[k]) && r[k] in paths
  {
    if paths == [] then []
    else
      var init := Images(paths[..|paths| - 1], isImage);
      var p := paths[|paths| - 1];
      if isImage(p) then init + [p] else init
  }

  /** The skip notes for the paths that are not images. */
  function SkipNotes(paths: seq<string>, isImage: string -> bool): seq<string> {
    if paths == [] then []
    else
      var init := SkipNotes(paths[..|paths| - 1], isImage);
      var p := paths[|paths| - 1];
      if isImage(p) then init else init + [Paths.Basename(p) + NotAnImage]
  }

  lemma SelectionNext(paths: seq<string>, i: nat, isImage: string -> bool)
    requires i < |paths|
    ensures Images(paths[..i + 1], isImage) == Images(paths[..i], isImage) + (if isImage(paths[i]) then [paths[i]] else [])
    ensures SkipNotes(paths[..i + 1], isImage)
         == SkipNotes(paths[..i], isImage) + (if isImage(paths[i]) then [] else [Paths.Basename(paths[i]) + NotAnImage])
  {
    assert paths[..i + 1][..i] == paths[..i];
  }

  /** Every selected path is either imported or skipped. */
  lemma {:induction false} ImagesAndSkips(paths: seq<string>, isImage: string -> bool)
    ensures |Images(paths, isImage)| + |SkipNotes(paths, isImage)| == |paths|
    decreases |paths|
  {
    if paths != [] {
      ImagesAndSkips(paths[..|paths| - 1], isImage);
    }
  }

  function Elems(s: seq<string>): set<string> { set x | x in s }

  /** `dest` is where an import of `path` lands when `existing` exist:
      the vault path of its own name when free, else the first free
      numbered one. */
  ghost predicate Placed(existing: set<string>, vaultDir: string, path: string, dest: string) {
    var original := Paths.Basename(path);
    Naming.Resolved(existing, Destination(vaultDir, path), ClashPrefix(vaultDir, original), ClashSuffix(original), dest)
  }

  /** `imported` are the vault paths the images landed at, one after the
      other: each placed against what existed then, including the
      earlier imports. */
  ghost predicate Imports(disk: set<string>, vaultDir: string, images: seq<string>, imported: seq<string>) {
    && |imported| == |images|
    && forall k :: 0 <= k < |images| ==> Placed(disk + Elems(imported[..k]), vaultDir, images[k], imported[k])
  }

  /** One more import extends the record. */
  lemma ImportsSnoc(disk: set<string>, vaultDir: string, images: seq<string>, imported: seq<string>, p: string, d: string)
    requires Imports(disk, vaultDir, images, imported)
    requires Placed(disk + Elems(imported), vaultDir, p, d)
    ensures Imports(disk, vaultDir, images + [p], imported + [d])
  {
    forall k | 0 <= k < |images| + 1
      ensures Placed(disk + Elems((imported + [d])[..k]), vaultDir, (images + [p])[k], (imported + [d])[k])
    {
      if k < |images| {
        SnocKeepsEarlier(disk, vaultDir, images, imported, p, d, k);
      } else {
        assert (imported + [d])[..k] == imported;
      }
    }
  }

  lemma SnocKeepsEarlier(disk: set<string>, vaultDir: string, images: seq<string>, imported: seq<string>, p: string, d: string, k: nat)
    requires Imports(disk, vaultDir, images, imported) && k < |images|
    ensures Placed(disk + Elems((imported + [d])[..k]), vaultDir, (images + [p])[k], (imported + [d])[k])
  {
    assert Placed(disk + Elems(imported[..k]), vaultDir, images[k], imported[k]);
    assert (imported + [d])[..k] == imported[..k];
  }

  /** Imports never overwrite: each lands on a path that did not exist,
      and no two land on the same path. */
  lemma ImportsFresh(disk: set<string>, vaultDir: string, images: seq<string>, imported: seq<string>)
    requires Imports(disk, vaultDir, images, imported)
    ensures forall k :: 0 <= k < |imported| ==> imported[k] !in disk
    ensures forall j, k :: 0 <= j < k < |imported| ==> imported[j] != imported[k]
  {
    forall j, k | 0 <= j < k < |imported| ensures imported[j] != imported[k] {
      assert Placed(disk + Elems(imported[..k]), vaultDir, images[k], imported[k]);
      assert imported[j] == imported[..k][j];
      assert imported[j] in Elems(imported[..k]);
    }
    forall k | 0 <= k < |imported| ensures imported[k] !in disk {
      assert Placed(disk + Elems(imported[..k]), vaultDir, images[k], imported[k]);
    }
  }

  /** A photo whose name is free in the vault keeps it. */
  lemma ImportKeepsFreeName(disk: set<string>, vaultDir: string, images: seq<string>, imported: seq<string>, k: nat)
    requires Imports(disk, vaultDir, images, imported) && k < |images|
    requires Destination(vaultDir, images[k]) !in disk + Elems(imported[..k])
    ensures imported[k] == Destination(vaultDir, images[k])
  {
    assert Placed(disk + Elems(imported[..k]), vaultDir, images[k], imported[k]);
  }

  lemma ElemsSnoc(s: seq<string>, x: string)
    ensures Elems(s + [x]) == Elems(s) + {x}
  {
    assert forall y :: y in s + [x] <==> y in s || y == x;
  }

  class Vault {
    const vaultDir: string
    var disk: set<string>
    var processing: bool

    constructor (vaultDir: string, disk: set<string>)
      ensures this.vaultDir == vaultDir && this.disk == disk && !processing
    {
      this.vaultDir := vaultDir;
      this.disk := disk;
      processing := false;
    }

    /** select_photos_from_gallery: a second request while one is in
        progress does nothing; otherwise the picker opens. */
    method SelectPhotos() returns (started: bool)
      modifies this`processing
      ensures started <==> !old(processing)
      ensures processing
    {
      if processing {
        return false;
      }
      processing := true;
      started := true;
    }

    /** finish_import, and the picker's cancel: the vault is free again. */
    method FinishImport()
      modifies this`processing
      ensures !processing
    {
      processing := false;
    }

    /** One image copied into the vault under its resolved name. */
    method ImportOne(path: string) returns (dest: string)
      modifies this`disk
      ensures Placed(old(disk), vaultDir, path, dest)
      ensures disk == old(disk) + {dest}
    {
      var original := Paths.Basename(path);
      dest := Naming.ResolveConflict(disk, Destination(vaultDir, path), ClashPrefix(vaultDir, original), ClashSuffix(original));
      assert Placed(disk, vaultDir, path, dest);
      disk := disk + {dest};
    }

    /** The next image of a selection imported after those before it. */
    method ImportNext(ghost start: set<string>, ghost images: seq<string>, imported: seq<string>, p: string)
      returns (imported': seq<string>)
      requires Imports(start, vaultDir, images, imported) && disk == start + Elems(imported)
      modifies this`disk
      ensures Imports(start, vaultDir, images + [p], imported')
      ensures disk == start + Elems(imported')
    {
      var dest := ImportOne(p);
      ElemsSnoc(imported, dest);
      ImportsSnoc(start, vaultDir, images, imported, p, dest);
      imported' := imported + [dest];
    }

    /** handle_selection_async and the finish it schedules: images are
        copied in order, everything else is reported as skipped. */
    method HandleSelection(paths: seq<string>, isImage: string -> bool) returns (imported: seq<string>, skipped: seq<string>)
      modifies this`disk, this`processing
      ensures !processing
      ensures Imports(old(disk), vaultDir, Images(paths, isImage), imported)
      ensures skipped == SkipNotes(paths, isImage)
      ensures disk == old(disk) + Elems(imported)
    {
      if paths == [] {
        processing := false;
        return [], [];
      }
      imported, skipped := [], [];
      ghost var images: seq<string> := [];
      var i := 0;
      while i < |paths|
        invariant i <= |paths|
        invariant images == Images(paths[..i], isImage)
        invariant skipped == SkipNotes(paths[..i], isImage)
        invariant Imports(old(disk), vaultDir, images, imported)
        invariant disk == old(disk) + Elems(imported)
      {
        SelectionNext(paths, i, isImage);
        var p := paths[i];
        if !isImage(p) {
          skipped := skipped + [Paths.Basename(p) + NotAnImage];
        } else {
          imported := ImportNext(old(disk), images, imported, p);
          images := images + [p];
        }
        i := i + 1;
      }
      assert paths[..i] == paths;
      processing := false;
    }

    /** delete_photo: with a recycle bin (`recycled` holds whether its
        move succeeded) the answer is the bin's; without one the photo is
        removed if it exists. */
    method DeletePhoto(photoPath: string, recycled: Option<bool>) returns (ok: bool)
      modifies this`disk
      ensures ok <==> (if recycled.Some? then recycled.value else photoPath in old(disk))
      ensures disk == (if ok then old(disk) - {photoPath} else old(disk))
    {
      if recycled.Some? {
        ok := recycled.value;
      } else {
        ok := photoPath in disk;
      }
      if ok {
        disk := disk - {photoPath};
      }
    }

    /** export_photo: the shared checks, then a copy under the photo's own
        name. */
    method ExportPhoto(photoPath: string, writable: set<string>, folder: Option<string>) returns (r: Export.ExportResult)
      modifies this`disk
      ensures photoPath !in old(disk) ==> r == Export.ExportFailed(PhotoNotFound, false) && disk == old(disk)
      ensures Export.Refusal(photoPath in old(disk), PhotoNotFound, folder, old(disk), writable).Some? ==>
        r.ExportFailed? && disk == old(disk)
      ensures Export.Refusal(photoPath in old(disk), PhotoNotFound, folder, old(disk), writable).None? ==>
        && r.Exported? && r.originalName == Paths.Basename(photoPath)
        && Export.Placed(old(disk), Paths.Join(folder.value, r.originalName), r.exportPath)
        && disk == old(disk) + {r.exportPath}
    {
      var after;
      r, after := Export.ExportFile(disk, writable, photoPath in disk, PhotoNotFound, Paths.Basename(photoPath), folder);
      disk := after;
    }
  }
}
