/** PIN-keyed file encryption (simple_encryption.py): a key derived from
    the PIN with fixed PBKDF2 parameters, files stored as "<name>.vault"
    with a metadata file remembering each original name, and a listing
    that shows those names. The key derivation and the cipher are opaque
    functions passed in; a vault folder holds its files by name and the
    parsed metadata file. */
module SimpleEncryption {
  import opened Wrappers
  import opened Strings
  import Paths
  import Naming

  type Bytes = seq<bv8>
  type Key = Bytes

  /** A PBKDF2-HMAC key derivation: hash, key length, salt, iterations. */
  datatype Kdf = Pbkdf2Hmac(hash: string, length: nat, salt: string, iterations: nat)

  /** The derivation every encryptor uses: nothing in it varies but the
      PIN, so equal PINs give equal keys. */
  const VaultKdf := Pbkdf2Hmac("SHA256", 32, "vault2024", 100000)

  /** The (url-safe base64) key derived from a PIN. */
  function KeyFor(derive: (Kdf, string) -> Key, pin: string): Key {
    derive(VaultKdf, pin)
  }

  /** The cipher opens what it sealed under the same key. */
  ghost predicate CipherRoundTrip(encrypt: (Key, Bytes) -> Bytes, decrypt: (Key, Bytes) -> Option<Bytes>) {
    forall k, d :: decrypt(k, encrypt(k, d)) == Some(d)
  }

  /** Two encryptors made from the same PIN open each other's files. */
  lemma SamePinOpens(derive: (Kdf, string) -> Key, encrypt: (Key, Bytes) -> Bytes,
                     decrypt: (Key, Bytes) -> Option<Bytes>, pin: string, data: Bytes)
    requires CipherRoundTrip(encrypt, decrypt)
    ensures decrypt(KeyFor(derive, pin), encrypt(KeyFor(derive, pin), data)) == Some(data)
  {
  }

  /** SimpleEncryption: the cipher keyed by the PIN. `data` is what reading
      the file gives (None when it cannot be read). */
  class Encryptor {
    const key: Key

    constructor (pin: string, derive: (Kdf, string) -> Key)
      ensures key == KeyFor(derive, pin)
    {
      key := KeyFor(derive, pin);
    }

    /** encrypt_file: True with the sealed bytes to write, or False when
        the source cannot be read. */
    method EncryptFile(data: Option<Bytes>, encrypt: (Key, Bytes) -> Bytes) returns (ok: bool, sealed: Bytes)
      ensures ok <==> data.Some?
      ensures ok ==> sealed == encrypt(key, data.value)
    {
      if data.None? {
        return false, [];
      }
      ok, sealed := true, encrypt(key, data.value);
    }

    /** decrypt_file and decrypt_to_memory: the plain bytes, or None when
        the file cannot be read or does not open under this key. */
    method DecryptToMemory(data: Option<Bytes>, decrypt: (Key, Bytes) -> Option<Bytes>) returns (r: Option<Bytes>)
      ensures data.None? ==> r.None?
      ensures data.Some? ==> r == decrypt(key, data.value)
    {
      if data.None? {
        return None;
      }
      r := decrypt(key, data.value);
    }
  }

  const VaultSuffix := ".vault"
  const MetadataFile := "file_info.json"
  const EncryptionFailed := "Encryption failed"
  const TempPrefix := "vault_temp_"

  /** One metadata entry: the name the file had and its extension. */
  datatype FileInfo = FileInfo(originalName: string, originalExt: string)

  type Metadata = map<string, FileInfo>

  /** The metadata in force: the parsed file, or nothing when it is
      missing or unreadable. */
  function Known(metadata: Option<Metadata>): Metadata {
    if metadata.Some? then metadata.value else map[]
  }

  /** The stored name first tried: the original extension gives way to
      ".vault". */
  function StoredName(filename: string): string { Paths.Root(filename) + VaultSuffix }

  function ClashPrefix(filename: string): string { Paths.Root(filename) + "_" }

  /** The name shown for a stored file: the recorded original name, else
      the stored name with every ".vault" taken out. */
  function DisplayName(metadata: Metadata, name: string): string {
    if name in metadata then metadata[name].originalName else RemoveAll(name, VaultSuffix)
  }

  /** A stored name keeps the original's stem and ends in ".vault": the
      first free of "<stem>.vault", "<stem>_1.vault", "<stem>_2.vault", ... */
  lemma StoredNameShape(existing: set<string>, filename: string, stored: string)
    requires Naming.Resolved(existing, StoredName(filename), ClashPrefix(filename), VaultSuffix, stored)
    ensures stored !in existing
    ensures StartsWith(stored, Paths.Root(filename)) && EndsWith(stored, VaultSuffix)
    ensures stored == StoredName(filename) || exists n :: n >= 1 && stored == Paths.Root(filename) + "_" + NatToString(n) + VaultSuffix
  {
    var stem := Paths.Root(filename);
    Naming.ResolvedCases(existing, StoredName(filename), ClashPrefix(filename), VaultSuffix, stored);
    if stored == StoredName(filename) {
      assert stored == stem + [] + [] + VaultSuffix;
      Affixes(stem, [], [], VaultSuffix);
    } else {
      var n :| n >= 1 && stored == Naming.Numbered(ClashPrefix(filename), n, VaultSuffix);
      assert stored == stem + "_" + NatToString(n) + VaultSuffix;
      Affixes(stem, "_", NatToString(n), VaultSuffix);
    }
  }

  /** Without metadata a name that holds ".vault" only at its end shows
      without it. */
  lemma FallbackDisplay(x: string)
    requires forall i :: 0 <= i < |x| ==> !OccursAt(x + VaultSuffix, VaultSuffix, i)
    ensures DisplayName(map[], x + VaultSuffix) == x
  {
    RemoveTrailing(x, VaultSuffix);
  }

  /** What decrypt_for_viewing gives for a stored name: the temporary path
      named after the display name, and the plain bytes. */
  function Viewed(files: map<string, Bytes>, metadata: Option<Metadata>, name: string, key: Key,
                  decrypt: (Key, Bytes) -> Option<Bytes>, tempDir: string): Option<(string, Bytes)> {
    if name !in files then None
    else
      var plain := decrypt(key, files[name]);
      if plain.None? then None
      else Some((Paths.Join(tempDir, TempPrefix + DisplayName(Known(metadata), name)), plain.value))
  }

  /** Storing a file and then viewing it with the same PIN gives back the
      bytes, under a temporary name made from the original name. */
  lemma StoreThenView(files: map<string, Bytes>, metadata: Option<Metadata>, stored: string, filename: string,
                      data: Bytes, derive: (Kdf, string) -> Key, pin: string,
                      encrypt: (Key, Bytes) -> Bytes, decrypt: (Key, Bytes) -> Option<Bytes>, tempDir: string)
    requires CipherRoundTrip(encrypt, decrypt)
    ensures
      var files' := files[stored := encrypt(KeyFor(derive, pin), data)];
      var metadata' := Some(Known(metadata)[stored := FileInfo(filename, Paths.Ext(filename))]);
      Viewed(files', metadata', stored, KeyFor(derive, pin), decrypt, tempDir)
        == Some((Paths.Join(tempDir, TempPrefix + filename), data))
  {
    SamePinOpens(derive, encrypt, decrypt, pin, data);
  }

  /** One listed file. */
  datatype EncryptedFile = EncryptedFile(encryptedPath: string, displayName: string, fileSize: nat)

  /** The names that end in ".vault", in listing order. */
  function VaultNames(names: seq<string>): (r: seq<string>)
    ensures forall k :: 0 <= k < |r| ==> r[k] in names && EndsWith(r[k], VaultSuffix)
  {
    if names == [] then []
    else
      var init := VaultNames(names[..|names| - 1]);
      var n := names[|names| - 1];
      if EndsWith(n, VaultSuffix) then init + [n] else init
  }

  /** Every ".vault" name in the listing is listed. */
  lemma {:induction false} VaultNamesFind(names: seq<string>, n: string)
    requires n in names && EndsWith(n, VaultSuffix)
    ensures n in VaultNames(names)
    decreases |names|
  {
    if names[|names| - 1] != n {
      var i :| 0 <= i < |names| && names[i] == n;
      assert names[..|names| - 1][i] == n;
      VaultNamesFind(names[..|names| - 1], n);
    }
  }

  lemma VaultNamesNext(names: seq<string>, i: nat)
    requires i < |names|
    ensures VaultNames(names[..i + 1]) == VaultNames(names[..i]) + (if EndsWith(names[i], VaultSuffix) then [names[i]] else [])
  {
    assert names[..i + 1][..i] == names[..i];
  }

  /** The entry get_encrypted_files makes for a stored name. */
  function Listing(vaultDir: string, metadata: Metadata, size: string -> nat, name: string): EncryptedFile {
    EncryptedFile(Paths.Join(vaultDir, name), DisplayName(metadata, name), size(Paths.Join(vaultDir, name)))
  }

  /** `files` are the entries for the names `vaultNames`, in order. */
  predicate Lists(files: seq<EncryptedFile>, vaultDir: string, metadata: Metadata, size: string -> nat, vaultNames: seq<string>) {
    && |files| == |vaultNames|
    && forall k :: 0 <= k < |files| ==> files[k] == Listing(vaultDir, metadata, size, vaultNames[k])
  }

  lemma ListsSnoc(files: seq<EncryptedFile>, vaultDir: string, metadata: Metadata, size: string -> nat,
                  vaultNames: seq<string>, name: string)
    requires Lists(files, vaultDir, metadata, size, vaultNames)
    ensures Lists(files + [Listing(vaultDir, metadata, size, name)], vaultDir, metadata, size, vaultNames + [name])
  {
  }

  /** The entry for one name, as the loop builds it. */
  method ListOne(vaultDir: string, known: Metadata, size: string -> nat, filename: string) returns (entry: EncryptedFile)
    ensures entry == Listing(vaultDir, known, size, filename)
  {
    var path := Paths.Join(vaultDir, filename);
    var display := RemoveAll(filename, VaultSuffix);
    if filename in known {
      display := known[filename].originalName;
    }
    entry := EncryptedFile(path, display, size(path));
  }

  /** get_encrypted_files: nothing for a missing folder; otherwise one
      entry per ".vault" name of the directory listing `names`, in its
      order. `metadata` is the parsed metadata file (None when missing or
      unreadable) and `size` gives file sizes. */
  method GetEncryptedFiles(vaultDir: string, dirExists: bool, names: seq<string>,
                           metadata: Option<Metadata>, size: string -> nat)
    returns (files: seq<EncryptedFile>)
    ensures !dirExists ==> files == []
    ensures dirExists ==> Lists(files, vaultDir, Known(metadata), size, VaultNames(names))
  {
    files := [];
    if !dirExists {
      return;
    }
    var known := Known(metadata);
    var i := 0;
    while i < |names|
      invariant i <= |names|
      invariant Lists(files, vaultDir, known, size, VaultNames(names[..i]))
    {
      VaultNamesNext(names, i);
      var filename := names[i];
      if EndsWith(filename, VaultSuffix) {
        var entry := ListOne(vaultDir, known, size, filename);
        ListsSnoc(files, vaultDir, known, size, VaultNames(names[..i]), filename);
        files := files + [entry];
      }
      i := i + 1;
    }
    assert names[..i] == names;
  }

  /** A stored file shows up in the next listing of its folder, under the
      name it was stored from. */
  lemma StoredIsListed(existing: set<string>, filename: string, stored: string, names: seq<string>, metadata: Option<Metadata>)
    requires Naming.Resolved(existing, StoredName(filename), ClashPrefix(filename), VaultSuffix, stored)
    requires stored in names
    ensures stored in VaultNames(names)
    ensures DisplayName(Known(metadata)[stored := FileInfo(filename, Paths.Ext(filename))], stored) == filename
  {
    StoredNameShape(existing, filename, stored);
    VaultNamesFind(names, stored);
  }

  /** A result of encrypt_and_store. */
  datatype StoreResult = Stored(encryptedPath: string) | StoreFailed(error: string)

  /** A vault folder: whether it exists, its stored files by name, and its
      metadata file as parsed (None when missing or unreadable). */
  class VaultFolder {
    const vaultDir: string
    var dirExists: bool
    var files: map<string, Bytes>
    var metadata: Option<Metadata>

    constructor (vaultDir: string, dirExists: bool, files: map<string, Bytes>, metadata: Option<Metadata>)
      ensures this.vaultDir == vaultDir && this.dirExists == dirExists
      ensures this.files == files && this.metadata == metadata
    {
      this.vaultDir := vaultDir;
      this.dirExists := dirExists;
      this.files := files;
      this.metadata := metadata;
    }

    /** encrypt_and_store: the folder is created, a free stored name chosen
        and the source encrypted under the PIN's key; only when that
        succeeds are the file written and its original name and extension
        recorded (an unreadable metadata file is started afresh).
        `source` is what reading the source gives. */
    method EncryptAndStore(source: Option<Bytes>, filename: string, pin: string,
                           derive: (Kdf, string) -> Key, encrypt: (Key, Bytes) -> Bytes)
      returns (r: StoreResult, ghost stored: string)
      modifies this`dirExists, this`files, this`metadata
      ensures dirExists
      ensures Naming.Resolved(old(files).Keys, StoredName(filename), ClashPrefix(filename), VaultSuffix, stored)
      ensures source.None? ==>
        r == StoreFailed(EncryptionFailed) && files == old(files) && metadata == old(metadata)
      ensures source.Some? ==>
        && r == Stored(Paths.Join(vaultDir, stored))
        && files == old(files)[stored := encrypt(KeyFor(derive, pin), source.value)]
        && metadata == Some(Known(old(metadata))[stored := FileInfo(filename, Paths.Ext(filename))])
    {
      dirExists := true;
      var name := Naming.ResolveConflict(files.Keys, StoredName(filename), ClashPrefix(filename), VaultSuffix);
      stored := name;
      var encryptor := new Encryptor(pin, derive);
      var ok, sealed := encryptor.EncryptFile(source, encrypt);
      if !ok {
        r := StoreFailed(EncryptionFailed);
      } else {
        Record(name, sealed, FileInfo(filename, Paths.Ext(filename)));
        r := Stored(Paths.Join(vaultDir, name));
      }
    }

    /** Writes the sealed file under its stored name and records its entry. */
    method Record(name: string, sealed: Bytes, info: FileInfo)
      modifies this`files, this`metadata
      ensures files == old(files)[name := sealed]
      ensures metadata == Some(Known(old(metadata))[name := info])
    {
      files := files[name := sealed];
      metadata := Some(Known(metadata)[name := info]);
    }

    /** decrypt_for_viewing, for a stored name of this folder: the
        temporary path and the plain bytes, or None when the file is
        missing or does not open under the PIN's key. */
    method DecryptForViewing(name: string, pin: string, derive: (Kdf, string) -> Key,
                             decrypt: (Key, Bytes) -> Option<Bytes>, tempDir: string)
      returns (r: Option<(string, Bytes)>)
      ensures r == Viewed(files, metadata, name, KeyFor(derive, pin), decrypt, tempDir)
      ensures r.Some? <==> name in files && decrypt(KeyFor(derive, pin), files[name]).Some?
    {
      var original := RemoveAll(name, VaultSuffix);
      var known := Known(metadata);
      if name in known {
        original := known[name].originalName;
      }
      var tempPath := Paths.Join(tempDir, TempPrefix + original);
      var encryptor := new Encryptor(pin, derive);
      var data := if name in files then Some(files[name]) else None;
      var plain := encryptor.DecryptToMemory(data, decrypt);
      if plain.None? {
        return None;
      }
      r := Some((tempPath, plain.value));
    }
  }
}
