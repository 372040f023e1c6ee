/** App-private storage layout: a base directory holding vault_data,
    vault_recycle and config, one sub-directory per file type, created on
    first use; plus the storage-info (time to live) and security-report
    caches. The filesystem is the set of paths that exist. */
module SecureStorage {
  import opened Wrappers
  import opened Strings
  import Paths
  import Naming

  /** Seconds a storage-info snapshot is served from the cache. */
  const StorageInfoTtl: int := 300

  /** A file-type name: never empty, so it always names a sub-directory. */
  type TypeName = s: string | s != "" witness "other"

  const VaultTypes: seq<TypeName> := ["photos", "videos", "notes", "audio", "documents", "apps", "other"]
  const RecycleTypes: seq<TypeName> := VaultTypes + ["thumbnails"]

  function VaultRoot(base: string): string { Paths.Join(base, "vault_data") }
  function RecycleRoot(base: string): string { Paths.Join(base, "vault_recycle") }
  function ConfigRoot(base: string): string { Paths.Join(base, "config") }

  /** get_vault_directory / get_recycle_directory: a non-empty file type
      names a sub-directory of the root, an empty (falsy) one the root. */
  function TypedDirectory(root: string, fileType: string): (d: string)
    ensures fileType == "" ==> d == root
    ensures fileType != "" ==> EndsWith(d, fileType)
  {
    if fileType == "" then root else Paths.Join(root, fileType)
  }

  /** A plain type name is the last component of its directory. */
  lemma TypedDirectoryNamesType(root: string, fileType: string)
    requires fileType != "" && '/' !in fileType
    ensures Paths.Basename(TypedDirectory(root, fileType)) == fileType
  {
    Paths.BasenameOfJoin(root, fileType);
  }

  /** root/t for each type t, in order. */
  function Under(root: string, types: seq<string>): (dirs: seq<string>)
    ensures |dirs| == |types|
    ensures forall i :: 0 <= i < |types| ==> dirs[i] == Paths.Join(root, types[i])
  {
    if types == [] then [] else [Paths.Join(root, types[0])] + Under(root, types[1..])
  }

  /** The nineteen directories ensure_secure_directories creates, in order. */
  function SecureDirectories(base: string): seq<string> {
    [base, VaultRoot(base), RecycleRoot(base), ConfigRoot(base)]
    + Under(VaultRoot(base), VaultTypes) + Under(RecycleRoot(base), RecycleTypes)
  }

  lemma UnderCovers(root: string, types: seq<string>, t: string)
    requires t in types
    ensures Paths.Join(root, t) in Under(root, types)
  {
    var i :| 0 <= i < |types| && types[i] == t;
    assert Under(root, types)[i] == Paths.Join(root, t);
  }

  /** The layout holds the three roots and the directory of every vault
      and recycle type. */
  lemma LayoutCoversTypes(base: string, t: string)
    ensures VaultRoot(base) in SecureDirectories(base) && RecycleRoot(base) in SecureDirectories(base)
    ensures t in VaultTypes ==> TypedDirectory(VaultRoot(base), t) in SecureDirectories(base)
    ensures t in RecycleTypes ==> TypedDirectory(RecycleRoot(base), t) in SecureDirectories(base)
  {
    var head := [base, VaultRoot(base), RecycleRoot(base), ConfigRoot(base)];
    var v := Under(VaultRoot(base), VaultTypes);
    var r := Under(RecycleRoot(base), RecycleTypes);
    assert SecureDirectories(base) == head + v + r;
    assert head[1] == VaultRoot(base) && head[2] == RecycleRoot(base);
    if t in VaultTypes {
      UnderCovers(VaultRoot(base), VaultTypes, t);
      var i :| 0 <= i < |VaultTypes| && VaultTypes[i] == t;
    }
    if t in RecycleTypes {
      UnderCovers(RecycleRoot(base), RecycleTypes, t);
      var i :| 0 <= i < |RecycleTypes| && RecycleTypes[i] == t;
    }
  }

  /** os.path.expanduser("~" + rest) for a home directory `home`. */
  function ExpandHome(home: string, rest: string): string {
    RStripBy(home, c => c == '/') + rest
  }

  /** The locations is_user_accessible treats as visible to the user. */
  function UserAccessiblePatterns(home: string, cwd: string): seq<string> {
    ["/sdcard", "/storage/emulated/0",
     ExpandHome(home, "/Desktop"), ExpandHome(home, "/Documents"), ExpandHome(home, "/Downloads"),
     cwd]
  }

  /** The scan of is_user_accessible: does s start with one of the patterns? */
  function AnyPrefixOf(s: string, patterns: seq<string>): (b: bool)
    ensures b <==> exists i :: 0 <= i < |patterns| && StartsWith(s, patterns[i])
  {
    if patterns == [] then false
    else StartsWith(s, patterns[0]) || AnyPrefixOf(s, patterns[1..])
  }

  function IsUserAccessible(base: string, home: string, cwd: string): bool {
    AnyPrefixOf(base, UserAccessiblePatterns(home, cwd))
  }

  /** The working directory counts as user-visible, so a base directory
      inside it is reported accessible (whatever the home directory). */
  lemma BaseUnderCwdIsAccessible(base: string, home: string, cwd: string)
    requires StartsWith(base, cwd)
    ensures IsUserAccessible(base, home, cwd)
  {
    assert UserAccessiblePatterns(home, cwd)[5] == cwd;
  }

  datatype StorageInfo = StorageInfo(
    baseDirectory: string,
    isSecure: bool,
    vaultDirectory: string,
    recycleDirectory: string,
    configDirectory: string,
    permissions: string,
    hidden: bool,
    totalFiles: nat,
    totalBytes: nat)

  datatype SecurityReport = SecurityReport(isSecure: bool, issues: seq<string>, recommendations: seq<string>)

  /** The issue list of verify_security. `mode` is the last three octal
      digits of the base directory's mode, None when os.stat failed. */
  function SecurityIssues(baseExists: bool, accessible: bool, android: bool, mode: Option<string>): (issues: seq<string>)
    ensures issues == [] <==> baseExists && !accessible && (android || mode == Some("700"))
  {
    (if baseExists then [] else ["Base directory does not exist"])
    + (if accessible then ["Storage location is easily accessible to users"] else [])
    + (if !android && baseExists then
         (match mode
          case None => ["Could not check permissions"]
          case Some(m) => if m != "700" then ["Insecure permissions: " + m + " (should be 700)"] else [])
       else [])
  }

  const PrivateLocationAdvice := "Consider using app-private storage location"
  const PermissionAdvice := "Ensure file permissions are set to 700 (owner only)"

  /** The advice every report ends with. */
  const StandingAdvice: seq<string> := ["Consider encrypting files before storing them",
                                        "Implement user authentication (PIN/password)",
                                        "Regular security audits of stored files"]

  /** _get_security_recommendations: the location advice when the storage
      is easy to reach, the permission advice on a POSIX desktop, then the
      standing advice. */
  function Recommendations(accessible: bool, android: bool, windows: bool): (r: seq<string>)
    ensures |r| == (if accessible then 1 else 0) + (if !android && !windows then 1 else 0) + |StandingAdvice|
    ensures r[|r| - |StandingAdvice|..] == StandingAdvice
    ensures accessible ==> r[0] == PrivateLocationAdvice
    ensures !android && !windows ==> r[|r| - |StandingAdvice| - 1] == PermissionAdvice
  {
    (if accessible then [PrivateLocationAdvice] else [])
    + (if !android && !windows then [PermissionAdvice] else [])
    + StandingAdvice
  }

  class Storage {
    const baseDir: string
    const vaultDir: string
    const recycleDir: string
    const configDir: string
    /** The home and working directories that expanduser and getcwd report. */
    const home: string
    const cwd: string
    const android: bool
    const windows: bool
    /** The paths that exist. */
    var disk: set<string>
    var directoriesCreated: bool
    var storageInfoCache: Option<StorageInfo>
    var storageInfoCacheTime: int
    var securityVerified: bool
    var securityResult: Option<SecurityReport>

    /** __init__: derives the layout but creates nothing. */
    constructor (baseDir: string, home: string, cwd: string, android: bool, windows: bool, disk: set<string>)
      ensures this.baseDir == baseDir && vaultDir == VaultRoot(baseDir)
      ensures recycleDir == RecycleRoot(baseDir) && configDir == ConfigRoot(baseDir)
      ensures this.home == home && this.cwd == cwd && this.android == android && this.windows == windows
      ensures this.disk == disk && !directoriesCreated
      ensures storageInfoCache == None && storageInfoCacheTime == 0
      ensures !securityVerified && securityResult == None && ReportConsistent()
    {
      this.baseDir := baseDir;
      vaultDir := VaultRoot(baseDir);
      recycleDir := RecycleRoot(baseDir);
      configDir := ConfigRoot(baseDir);
      this.home := home;
      this.cwd := cwd;
      this.android := android;
      this.windows := windows;
      this.disk := disk;
      directoriesCreated := false;
      storageInfoCache := None;
      storageInfoCacheTime := 0;
      securityVerified := false;
      securityResult := None;
    }

    /** ensure_secure_directories: the first call creates every missing
        directory of the layout and sets the flag; later calls return at once. */
    method EnsureSecureDirectories()
      modifies this`disk, this`directoriesCreated
      ensures directoriesCreated
      ensures old(directoriesCreated) ==> disk == old(disk)
      ensures !old(directoriesCreated) ==>
        disk == old(disk) + set d | d in SecureDirectories(baseDir)
    {
      if directoriesCreated {
        return;
      }
      CreateMissing(SecureDirectories(baseDir));
      directoriesCreated := true;
    }

    /** The creation loop: makedirs for each listed path that does not exist. */
    method CreateMissing(dirs: seq<string>)
      modifies this`disk
      ensures disk == old(disk) + set d | d in dirs
    {
      for i := 0 to |dirs|
        invariant disk == old(disk) + set d | d in dirs[..i]
      {
        assert dirs[..i + 1] == dirs[..i] + [dirs[i]];
        if dirs[i] !in disk {
          disk := disk + {dirs[i]};
        }
      }
      assert dirs[..|dirs|] == dirs;
    }

    /** get_vault_directory */
    method GetVaultDirectory(fileType: string) returns (d: string)
      modifies this`disk, this`directoriesCreated
      ensures d == TypedDirectory(vaultDir, fileType)
      ensures directoriesCreated
      ensures disk == if old(directoriesCreated) then old(disk)
                      else old(disk) + set x | x in SecureDirectories(baseDir)
    {
      EnsureSecureDirectories();
      d := TypedDirectory(vaultDir, fileType);
    }

    /** get_recycle_directory */
    method GetRecycleDirectory(fileType: string) returns (d: string)
      modifies this`disk, this`directoriesCreated
      ensures d == TypedDirectory(recycleDir, fileType)
      ensures directoriesCreated
      ensures disk == if old(directoriesCreated) then old(disk)
                      else old(disk) + set x | x in SecureDirectories(baseDir)
    {
      EnsureSecureDirectories();
      d := TypedDirectory(recycleDir, fileType);
    }

    /** store_file_securely: a missing source fails before anything else;
        otherwise the file is copied under the type's vault directory, the
        name getting "_n" before its extension when taken. An empty
        `filename` means none was given and the source's basename is used. */
    method StoreFileSecurely(source: string, fileType: string, filename: string) returns (r: Result<string>)
      modifies this`disk, this`directoriesCreated
      ensures r.Err? <==> source !in old(disk)
      ensures r.Err? ==>
        r.error == "Source file not found" && disk == old(disk) && directoriesCreated == old(directoriesCreated)
      ensures r.Ok? ==>
        var ready := if old(directoriesCreated) then old(disk)
                     else old(disk) + set x | x in SecureDirectories(baseDir);
        var target := Paths.Join(TypedDirectory(vaultDir, fileType),
                                 if filename == "" then Paths.Basename(source) else filename);
        && r.value !in ready
        && disk == ready + {r.value}
        && (target !in ready ==> r.value == target)
        && (target in ready ==> exists n :: Naming.IsFirstFree(ready, Paths.Root(target) + "_", Paths.Ext(target), n)
                                 && r.value == Naming.Numbered(Paths.Root(target) + "_", n, Paths.Ext(target)))
    {
      if source !in disk {
        return Err("Source file not found");
      }
      var dir := GetVaultDirectory(fileType);
      var name := if filename == "" then Paths.Basename(source) else filename;
      var target := Paths.Join(dir, name);
      var path := Naming.ResolveConflict(disk, target, Paths.Root(target) + "_", Paths.Ext(target));
      disk := disk + {path};
      r := Ok(path);
    }

    /** is_user_accessible */
    predicate UserAccessible() {
      IsUserAccessible(baseDir, home, cwd)
    }

    /** The snapshot get_storage_info computes when the cache is stale;
        `fileCount` and `totalBytes` are what the directory walk finds. */
    function FreshInfo(fileCount: nat, totalBytes: nat): (info: StorageInfo)
      reads this
      ensures info.isSecure <==> !UserAccessible()
      ensures baseDir !in disk ==> info.totalFiles == 0 && info.totalBytes == 0
      ensures baseDir in disk ==> info.totalFiles == fileCount && info.totalBytes == totalBytes
    {
      StorageInfo(baseDir, !UserAccessible(), vaultDir, recycleDir, configDir,
                  if android then "Android app-private" else "0o700 (owner only)",
                  windows,
                  if baseDir in disk then fileCount else 0,
                  if baseDir in disk then totalBytes else 0)
    }

    /** get_storage_info: served from the cache while it is younger than
        300 seconds, otherwise recomputed and cached with the current time. */
    method GetStorageInfo(now: int, fileCount: nat, totalBytes: nat) returns (info: StorageInfo)
      modifies this`storageInfoCache, this`storageInfoCacheTime
      ensures old(storageInfoCache).Some? && now - old(storageInfoCacheTime) < StorageInfoTtl ==>
        info == old(storageInfoCache).value
        && storageInfoCache == old(storageInfoCache) && storageInfoCacheTime == old(storageInfoCacheTime)
      ensures !(old(storageInfoCache).Some? && now - old(storageInfoCacheTime) < StorageInfoTtl) ==>
        info == FreshInfo(fileCount, totalBytes)
        && storageInfoCache == Some(info) && storageInfoCacheTime == now
    {
      if storageInfoCache.Some? && now - storageInfoCacheTime < StorageInfoTtl {
        return storageInfoCache.value;
      }
      info := FreshInfo(fileCount, totalBytes);
      storageInfoCache := Some(info);
      storageInfoCacheTime := now;
    }

    /** verify_security: the first call (or the first after clear_cache)
        computes and caches the report; later calls return the cached one.
        `mode` is the base directory's permission digits (None: stat failed). */
    method VerifySecurity(mode: Option<string>) returns (report: SecurityReport)
      requires ReportConsistent()
      modifies this`securityVerified, this`securityResult
      ensures ReportConsistent()
      ensures old(securityVerified) && old(securityResult).Some? ==>
        report == old(securityResult).value
        && securityVerified == old(securityVerified) && securityResult == old(securityResult)
      ensures !(old(securityVerified) && old(securityResult).Some?) ==>
        var issues := SecurityIssues(baseDir in disk, UserAccessible(), android, mode);
        && report == SecurityReport(issues == [], issues, Recommendations(UserAccessible(), android, windows))
        && securityVerified && securityResult == Some(report)
      ensures report.isSecure <==> report.issues == []
    {
      if securityVerified && securityResult.Some? {
        return securityResult.value;
      }
      var issues := SecurityIssues(baseDir in disk, UserAccessible(), android, mode);
      report := SecurityReport(issues == [], issues, Recommendations(UserAccessible(), android, windows));
      securityResult := Some(report);
      securityVerified := true;
    }

    /** A cached report says secure exactly when it lists no issue. */
    predicate ReportConsistent()
      reads this`securityResult
    {
      securityResult.Some? ==> (securityResult.value.isSecure <==> securityResult.value.issues == [])
    }

    /** clear_cache */
    method ClearCache()
      modifies this`storageInfoCache, this`storageInfoCacheTime, this`securityVerified, this`securityResult
      ensures ReportConsistent()
      ensures storageInfoCache == None && storageInfoCacheTime == 0
      ensures !securityVerified && securityResult == None
    {
      storageInfoCache := None;
      storageInfoCacheTime := 0;
      securityVerified := false;
      securityResult := None;
    }
  }
}
