/** The export routine the document, photo and video vaults each carry a
    copy of: four checks in a fixed order, then a copy into the chosen
    folder under the first free "<base> (n)<ext>" name. */
module Export {
  import opened Wrappers
  import Paths
  import Naming

  datatype ExportResult =
    | Exported(exportPath: string, originalName: string, exportFolder: string)
    | ExportFailed(error: string, needsFolderSelection: bool)

  /** The checks made before anything is copied: the source must exist, a
      folder must be chosen, and it must exist and be writable. `folder`
      None or "" is "no folder chosen". */
  function Refusal(sourceExists: bool, notFound: string, folder: Option<string>,
                   existing: set<string>, writable: set<string>): (r: Option<ExportResult>)
    ensures r.None? <==>
      sourceExists && folder.Some? && folder.value != "" && folder.value in existing && folder.value in writable
    ensures r.Some? ==> r.value.ExportFailed?
    ensures r.Some? ==> (r.value.needsFolderSelection <==> sourceExists)
    ensures !sourceExists ==> r == Some(ExportFailed(notFound, false))
  {
    if !sourceExists then Some(ExportFailed(notFound, false))
    else if folder.None? || folder.value == "" then Some(ExportFailed("No export folder selected", true))
    else if folder.value !in existing then Some(ExportFailed("Selected folder does not exist", true))
    else if folder.value !in writable then Some(ExportFailed("No write permission for selected folder", true))
    else None
  }

  /** The counter loop's candidates: the base path's stem, " (n)", then its
      extension; every candidate is built from the original base. */
  function Prefix(base: string): string { Paths.Root(base) + " (" }
  function Suffix(base: string): string { ")" + Paths.Ext(base) }

  /** `path` is where a file exported to `base` lands: `base` itself when
      free, else the first free numbered candidate. */
  ghost predicate Placed(existing: set<string>, base: string, path: string) {
    Naming.Resolved(existing, base, Prefix(base), Suffix(base), path)
  }

  /** The placement is determined by the existing paths. */
  lemma PlacedUnique(existing: set<string>, base: string, p1: string, p2: string)
    requires Placed(existing, base, p1) && Placed(existing, base, p2)
    ensures p1 == p2
  {
    Naming.ResolvedUnique(existing, base, Prefix(base), Suffix(base), p1, p2);
  }

  /** The export itself. `existing` are the paths that exist and
      `writable` the folders that may be written; the copy adds the
      export path and overwrites nothing. */
  method ExportFile(existing: set<string>, writable: set<string>, sourceExists: bool, notFound: string,
                    originalName: string, folder: Option<string>)
    returns (r: ExportResult, after: set<string>)
    ensures Refusal(sourceExists, notFound, folder, existing, writable).Some? ==>
      r == Refusal(sourceExists, notFound, folder, existing, writable).value && after == existing
    ensures Refusal(sourceExists, notFound, folder, existing, writable).None? ==>
      && r.Exported? && r.originalName == originalName && r.exportFolder == folder.value
      && Placed(existing, Paths.Join(folder.value, originalName), r.exportPath)
      && after == existing + {r.exportPath}
  {
    var refusal := Refusal(sourceExists, notFound, folder, existing, writable);
    if refusal.Some? {
      return refusal.value, existing;
    }
    var base := Paths.Join(folder.value, originalName);
    var path := Naming.ResolveConflict(existing, base, Prefix(base), Suffix(base));
    r := Exported(path, originalName, folder.value);
    after := existing + {path};
  }
}
