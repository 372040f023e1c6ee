# Ace-in-the-Hole vault core, modelled in Dafny

Ace-in-the-Hole is a file vault disguised as a three-card game: the game
screen (three-card monte) opens the vault on a secret volume-key pattern,
and behind it sit PIN and lockout handling, a recycle bin with retention
periods, photo, video, audio and document vaults with import, export and
first-free-name conflict handling, an HTTP upload server that parses
`multipart/form-data` bodies (section 5.1.1 of RFC 2046, section 4.2 of
RFC 7578), a vCard reader (RFC 6350), directory and cache bookkeeping for
the secure storage, a migration of existing files, a PIN-keyed file
encryption wrapper, and a developer script that lists a project's imports.

The model keeps the Python program's own shape. Objects whose fields the
code updates in place (the recycle bin, the password manager and PIN
screen, the vault app, the vaults, the upload server, the caches, the
game) are Dafny classes whose methods carry `modifies` frames and state
their whole new state; pure helpers (name parsing, categorisation,
multipart parsing, vCard line parsing, display names, the import scan)
are functions with lemmas. Loops in the source (counter searches,
cleanup sweeps, the streaming read loop, the vCard line loop, the
listing loops) are methods with loop invariants, each proved against a
specification function.

Abstractions used throughout:

- **Filesystem**: a `set<string>` of existing paths, or a `map` from path
  to contents or size where those matter, held by the object or passed in.
- **Time**: an integer `now` (seconds, or milliseconds in the game).
- **Foreign code**: Fernet, PBKDF2, the tag reader, the image and video
  libraries and the Python parser are function parameters; where a
  property needs them to behave (encryption followed by decryption with
  the same key), that is a named predicate the lemma requires. bcrypt is
  an ideal hash: the stored hash keeps the secret and its salt, and the
  check compares the secret with the one it keeps.
- **Randomness and animation**: the random choices and the eased card
  positions are parameters of the operations that use them.

Shared modules: `Wrappers` (Option, Result), `Strings` (ASCII lower-casing,
decimal rendering and parsing, strip, split, join, find, Python's string
order), `Paths` (posixpath basename, dirname, splitext, join), `Naming`
(the first-free-counter search the vault repeats in several places),
`Sorting` (stable key sorts and `sorted()` of a set) and `Export` (the
export checks shared by the photo and document vaults).

## Model

| member | source | states |
|---|---|---|
| SimpleEncryption.SamePinOpens | simple_encryption.py:10-50 | the key depends only on the PIN (PBKDF2-HMAC-SHA256, 32 bytes, salt "vault2024", 100000 iterations), so with a cipher that opens what it sealed, two encryptors made from the same PIN open each other's files |
| SimpleEncryption.Encryptor.EncryptFile | simple_encryption.py:22-35 | succeeds exactly when the source could be read, and then writes the cipher text of its bytes under the PIN's key |
| SimpleEncryption.Encryptor.DecryptToMemory | simple_encryption.py:37-59 | an unreadable file gives None; otherwise the answer is exactly what the cipher yields for the stored bytes |
| SimpleEncryption.StoredNameShape | simple_encryption.py:66-76 | the stored name never exists yet, starts with the original's stem and ends in ".vault": it is "<stem>.vault" or "<stem>_<n>.vault" for some n >= 1 (the original extension is dropped) |
| SimpleEncryption.VaultFolder.EncryptAndStore | simple_encryption.py:61-105 | the folder exists afterwards; the stored name is the first free one; a failed encryption changes neither files nor metadata and reports "Encryption failed"; a success writes the sealed bytes under that name and records the original name and extension for it, and nothing else |
| SimpleEncryption.FallbackDisplay | simple_encryption.py:166 | without metadata a stored name shows with ".vault" taken out |
| SimpleEncryption.VaultFolder.DecryptForViewing | simple_encryption.py:107-140 | the temporary path is "vault_temp_" plus the recorded original name (else the name without ".vault"), and a result is given exactly when the name is stored and decrypts |
| SimpleEncryption.StoreThenView | simple_encryption.py:61-140 | storing a file and then viewing it with the same PIN yields the original bytes under "vault_temp_<original name>" |
| SimpleEncryption.VaultNames | simple_encryption.py:161-162 | only listed names that end in ".vault" are kept |
| SimpleEncryption.VaultNamesFind | simple_encryption.py:161-162 | every listed name that ends in ".vault" is kept |
| SimpleEncryption.GetEncryptedFiles | simple_encryption.py:142-176 | a missing folder lists nothing; otherwise one entry per ".vault" name in listing order, with the recorded original name (else the name without ".vault") and the file's size |
| SimpleEncryption.StoredIsListed | simple_encryption.py:61-176 | a file just stored is listed by the next listing and shows under its original name |
| SecureIntegration.StemAndSuffix | vault_secure_integration.py:217 | a name is its PurePath stem followed by its suffix, and a non-empty stem keeps the first character |
| SecureIntegration.RenamedParts | vault_secure_integration.py:217-218 | one renaming appends "_migrated_<n>" to the stem and keeps the suffix |
| SecureIntegration.CandidateIs | vault_secure_integration.py:214-219 | the k-th name tried is the original stem, the tags "_migrated_1" to "_migrated_k" accumulated in order, then the original suffix |
| SecureIntegration.UniqueFilename | vault_secure_integration.py:211-221 | the loop stops: it returns the first candidate (in the accumulating sequence) whose path is not on disk, every earlier candidate being on disk |
| SecureIntegration.CandidateAccumulates | vault_secure_integration.py:211-221 | each candidate is built from the previous candidate's stem, so the `_migrated_n` suffixes pile up |
| SecureIntegration.FirstFreeUnique | vault_secure_integration.py:211-221 | the stopping point is determined by the disk: two answers for the same name agree |
| SecureIntegration.MatchesAny | vault_secure_integration.py:172 | true exactly when the name, ASCII letters lower-cased, ends with one of the extensions |
| SecureIntegration.FilesToMoveSound | vault_secure_integration.py:169-174 | every path collected is that of a file of the folder itself that passes the extension filter |
| SecureIntegration.FilesToMoveFind | vault_secure_integration.py:169-174 | every file of the folder that passes the filter is collected |
| SecureIntegration.FilteredSkipsFolders | vault_secure_integration.py:172-182 | with an extension list the sub-folders are not entered: the count is that of the folder's own matching files moved |
| SecureIntegration.MigratedCountBounds | vault_secure_integration.py:166-196 | the count never exceeds the files in the tree, and with no extension list and every move succeeding it is exactly the number of files in the tree |
| SecureIntegration.FilesToMoveInSources | vault_secure_integration.py:169-174 | every file chosen for moving is a file of the source folder, and there are at most as many as it holds directly |
| SecureIntegration.AllFilesCollected | vault_secure_integration.py:169-174 | with no extension filter every file directly in the folder is chosen |
| SecureIntegration.SubCountBounds | vault_secure_integration.py:175-182 | the sub-folders add at most their own files, and exactly those when there is no filter and every move succeeds |
| SecureIntegration.MovedCountAtMost | vault_secure_integration.py:185-197 | a batch counts at most one per file, and exactly one per file when every move succeeds |
| SecureIntegration.MoveOne | vault_secure_integration.py:185-197 | a successful move removes the source and adds the first free name for its basename in the target folder; a failed move changes nothing; the answer is whether it moved |
| SecureIntegration.MigrateFolder | vault_secure_integration.py:151-209 | a missing source folder gives 0 and no change; otherwise the count is the successful moves, those in sub-folders included, and every file stays unless it is a selected file of the folder or, with no extension list, a file of a sub-folder |
| SecureIntegration.ScanEntries | vault_secure_integration.py:169-182 | the scan collects exactly the selected files of the folder in listing order and adds the sub-folder migrations met on the way; with an extension list it changes nothing; only files of sub-folders leave the disk during the scan |
| SecureIntegration.MoveFiles | vault_secure_integration.py:185-197 | the count is the number of files whose move succeeds; file by file, a successful move takes the source away and adds the first free name for its basename in the target folder, and a failed move changes nothing; a file not in the batch is never removed |
| SecureIntegration.ChainStep | vault_secure_integration.py:185-197 | in a batch of moves, the disk after each file is that file's move applied to the disk before it: the source replaced by the first free name in the target folder on success, nothing changed on failure |
| SecureIntegration.MovableInSources | vault_secure_integration.py:169-182 | the files a migration may take away all lie inside the source tree |
| SecureIntegration.Integration.GetFileOperationPool | vault_secure_integration.py:19-26 | the first call creates a two-worker pool, later calls return the same pool, and at most one pool is ever created |
| SecureIntegration.Integration.GetSecureDirectory | vault_secure_integration.py:227-254 | no secure storage gives None and leaves the cache alone; otherwise "recycle" maps to the recycle root and any other type to the vault sub-folder, the answer is cached under (storage, type), and a cached answer is returned without touching the storage |
| SecureIntegration.Integration.ClearDirectoryCache | vault_secure_integration.py:260-266 | the cache is emptied |
| MonteGame.MaxShufflesFor | monte_game.py:167-169 | after a correct guess the shuffle budget is min(12, 6 + streak div 3): always between 6 and 12 |
| MonteGame.ShuffleInterval | monte_game.py:204 | the pause between shuffles is max(200, 800 / speed) milliseconds, never below 200 |
| MonteGame.Card.MoveTo | monte_game.py:405-408 | the card gets the new target and starts moving; its position and face are kept |
| MonteGame.Card.UpdatePosition | monte_game.py:374-392 | a still card is left alone; a moving card more than a pixel from its target steps to the eased position; within a pixel it snaps onto the target and stops; it reports whether it was moving; in all cases it ends where the glide from its old position puts it |
| MonteGame.FirstHit | monte_game.py:142-143 | the index of the first card whose rectangle holds the click, or none when no card does |
| MonteGame.Swapped | monte_game.py:130-134 | exchanging two cards' targets swaps exactly those two entries |
| MonteGame.SwapPermutes | monte_game.py:130-134 | a swap keeps the multiset of target positions |
| MonteGame.Scored | monte_game.py:146-157 | scoring keeps streak <= best streak and never lowers the best streak |
| MonteGame.TalliedMeans | monte_game.py:146-157 | after any sequence of guesses the score is ten per win, the streak is the run of wins at the end, and the best streak is the longest run of wins |
| MonteGame.Start | monte_game.py:51-67 | reset_game's state: zero score, streak and best streak, round 1, showing, six shuffles, and the status invariant holds |
| MonteGame.Guessed | monte_game.py:143-160 | a guess moves to the result phase and scores it; a miss also resets the speed and the budget of six shuffles; the status invariant is kept |
| MonteGame.NextRoundStatus | monte_game.py:164-173 | the round number goes up by one, the phase returns to showing with no shuffles done, and after a correct guess the budget is recomputed and the speed rises |
| MonteGame.RoundsKeepTally | monte_game.py:140-187 | playing rounds from a reset keeps exactly the tally of the guesses made |
| MonteGame.LongestBound | monte_game.py:146-157 | after one more guess no run of correct guesses is longer than the larger of the current streak and the old best |
| MonteGame.LongestWitness | monte_game.py:146-157 | after one more guess some run of correct guesses is as long as the new best streak |
| MonteGame.TextCache.Get | monte_game.py:81-100 | the rendered text for the key is returned; a hit changes nothing; a miss at 50 entries first drops the 10 oldest keys, then adds the key at the back; the cache stays within 50 distinct keys, each holding its own rendering |
| MonteGame.TextCache.EvictOldest | monte_game.py:91-94 | the 10 oldest keys leave, in order, and the rest stay |
| MonteGame.TextCache.Size | monte_game.py:90-98 | the cache holds exactly as many entries as keys in its insertion order |
| MonteGame.TextCache.Clear | monte_game.py:317-322 | cleanup empties the cache |
| MonteGame.Game.Cleanup | monte_game.py:317-322 | cleanup leaves the text cache empty and drops every card |
| MonteGame.Game.Deal | monte_game.py:69-77 | three distinct fresh cards, face down and still, laid out left to right at the card row, with exactly the chosen one the winner |
| MonteGame.Game.constructor | monte_game.py:6-49 | a new game is running with an empty text cache, the starting status and three cards dealt at rest in their slots, face down, exactly the chosen one the ace |
| MonteGame.Card.constructor | monte_game.py:325-334 | a new card lies at its own target, face down and still, with the given ace flag |
| MonteGame.Game.Reset | monte_game.py:51-79 | reset_game: the status is the starting one and three new cards are dealt at rest in their slots left to right, face down, exactly the chosen one the ace |
| MonteGame.Game.TurnCards | monte_game.py:115-124 | show_cards and hide_cards turn every card face up (or down) and move nothing |
| MonteGame.Game.ShuffleCards | monte_game.py:126-138 | below the budget two cards' targets are swapped and the count goes up by one; at the budget nothing moves and the game goes to guessing exactly when every card is still |
| MonteGame.Game.SwapTargets | monte_game.py:128-131 | the two picked cards exchange targets and both start moving; no card changes place or face, and the third card keeps its target and motion |
| MonteGame.Game.Exchange | monte_game.py:129-131 | each of two distinct cards takes the other's old target and starts moving, keeping its place and face |
| MonteGame.Game.HandleClick | monte_game.py:140-162 | in guessing the click is scored against the first card hit, a hit turning every card face up and a click on no card changing nothing, and no card moves; in showing and shuffling neither the status nor any card changes; in the result phase the next round starts with three new cards, face up and still in their slots, exactly the chosen one the ace |
| MonteGame.Game.Guess | monte_game.py:143-160 | a hit card decides the guess and every card is turned face up; a miss leaves the status and every card as they were; either way no card moves or changes target |
| MonteGame.Game.FindHit | monte_game.py:142-143 | the loop finds the first card hit |
| MonteGame.Game.NextRound | monte_game.py:164-187 | the next round's status, and three new cards, face up and still in their slots left to right, exactly the chosen one the ace |
| MonteGame.Game.Update | monte_game.py:189-224 | a stopped game changes nothing, neither the status nor any card's place, target, face or motion; showing turns to shuffling after 2000 ms with every card face down; shuffling follows the shuffle clock and swaps the picked targets exactly when a shuffle was taken; guessing waits; the result phase deals the next round face up after 2000 ms; every card then glides one frame from where it was; the score never changes here |
| MonteGame.Game.Advance | monte_game.py:196-215 | the phase clock: showing hides the cards and turns to shuffling after 2000 ms; shuffling follows the shuffle clock (a shuffle exactly when the pause since the last one has passed and the budget allows, guessing once it is spent and the cards are still) and swaps the picked targets when it shuffles; the result phase deals the next round after 2000 ms; nothing is moved on screen |
| MonteGame.Game.ShowTick | monte_game.py:196-200 | after 2000 ms of showing every card is face down and shuffling begins; before that nothing changes |
| MonteGame.Game.ShuffleTick | monte_game.py:202-212 | the shuffle clock: the first frame starts it; once the pause for the speed has passed a shuffle swaps the picked targets and the clock restarts |
| MonteGame.Game.ResultTick | monte_game.py:214-216 | after 2000 ms of the result the next round is dealt face up; before that nothing changes |
| MonteGame.Game.StepCards | monte_game.py:219-221 | every card glides one frame: a card more than a pixel from its target is drawn at its eased point and keeps moving, any other card sits on its target at rest; targets and faces are kept, and still cards stay where they are |
| MonteGame.Game.StepCard | monte_game.py:219-221 | one card glides one frame and no other card changes |
| ScanImports.TopLevel | scan_imports.py:19 | the kept name has no dot and is a prefix of the dotted name; an undotted name is kept whole |
| ScanImports.AstNamesAreTopLevel | scan_imports.py:15-22 | every name the parse route reports is dot-free and is the first component of a module named by some import node |
| ScanImports.AstNamesUndotted | scan_imports.py:15-22 | no name read from the syntax tree contains a dot |
| ScanImports.AstFindsEveryModule | scan_imports.py:16-22 | the first component of every module named by any import node is reported |
| ScanImports.BareRelativeAddsNothing | scan_imports.py:21-22 | a relative `from . import x` (no module) adds no name |
| ScanImports.AstKeepsDottedFrom | scan_imports.py:20-22 | `from a.b import c` reports `a` on the parse route |
| ScanImports.MatchImportFinds | scan_imports.py:31 | `import`, at least one blank, then an identifier ended by a non-identifier character is matched, and the identifier is captured |
| ScanImports.MatchImportSound | scan_imports.py:31 | whatever the import pattern captures is an identifier that the line spells as `import`, blanks, the identifier, and a tail that does not continue it |
| ScanImports.MatchFromFinds | scan_imports.py:32 | `from`, blanks, an identifier, blanks, `import` is matched whatever follows, and the identifier is captured |
| ScanImports.MatchFromSound | scan_imports.py:32 | whatever the from-pattern captures is an identifier that the line spells as `from`, blanks, the identifier, blanks and `import` |
| ScanImports.RegexMissesDottedFrom | scan_imports.py:32 | the fallback pattern does not match `from a.b import c`, so the fallback loses such imports while the parse route keeps them |
| ScanImports.MatchSound | scan_imports.py:30-33 | both patterns only ever capture identifiers |
| ScanImports.LineImportsIdent | scan_imports.py:30-33 | every name the two patterns find is a plain identifier |
| ScanImports.RegexImports | scan_imports.py:35-40 | every name the fallback collects, over all stripped lines, is an identifier |
| ScanImports.ExtractImports | scan_imports.py:6-44 | on the fallback route every name is an identifier; on the parse route no name has a dot |
| ScanImports.RecordedFiles | scan_imports.py:51-62 | every recorded path ends in `.py`, has a non-empty import set, and all of its imports are in the overall set |
| ScanImports.SkippedFolderIgnored | scan_imports.py:53 | a folder named `__pycache__`, `.git`, `venv`, `env` or `.env` changes nothing in the scan, whatever it holds |
| ScanImports.OtherFileIgnored | scan_imports.py:56 | a file not ending in `.py` changes nothing in the scan |
| ScanImports.ListedFileFound | scan_imports.py:55-62 | a `.py` file with imports is recorded under its joined path and its imports are in the overall set |
| ScanImports.FileEntryFound | scan_imports.py:55-62 | a `.py` file with imports is recorded under its path and its imports are collected |
| ScanImports.Filter | scan_imports.py:83-87 | an element is kept exactly when it is among the names and its membership in the standard list is the one asked for |
| ScanImports.FilterAscending | scan_imports.py:83 | filtering a sorted list keeps it sorted |
| ScanImports.FilterPartitions | scan_imports.py:66-89 | the standard list holds exactly the imports in the fixed standard-library set, the third-party list exactly the rest, both sorted |
| ScanImports.FilterCounts | scan_imports.py:83-87 | every import lands in exactly one of the two lists |
| RecycleBin.TypeTable.WithFileType | recycle_bin_core.py:530-545 | registering a type sets exactly that entry of the table; a new type goes to the end of the scan order, a known one keeps its place |
| RecycleBin.DefaultTypesValid | recycle_bin_core.py:23-66 | the built-in table lists every type once in scan order, `other` among them |
| RecycleBin.FirstTypeWith | recycle_bin_core.py:115-117 | the type found lists the extension and no type earlier in the scan order does; none found means no type lists it |
| RecycleBin.DetectFileType | recycle_bin_core.py:108-119 | the result is always a known type; a missing path gives `other`; any other answer lists the extension, ASCII letters lower-cased |
| RecycleBin.OggIsVideo | recycle_bin_core.py:32-44 | an existing `.ogg` file is classed as video, because videos are scanned before audio |
| RecycleBin.RecycledNameIs | recycle_bin_core.py:121-128 | the recycled name is `deleted_<stamp>_<original basename>` and holds no slash |
| RecycleBin.RecycledIdIsName | recycle_bin_core.py:121-130 | the basename of the recycled path, which becomes the entry's id, is that name |
| RecycleBin.RecycledEntry | recycle_bin_core.py:140-168 | the stored entry records the detected type, the recycled path under that type's folder, the original path and size, the deletion time, and the original folder when none is given |
| RecycleBin.DaysRemainingMeaning | recycle_bin_core.py:416-430 | an expired entry has 0 days left, an entry with days left is not expired, and days left never exceed the type's retention |
| RecycleBin.ViewOf | recycle_bin_core.py:400-407 | a listed entry carries its id, its data, the original basename and its days remaining |
| RecycleBin.RecycleBinCore.MoveToRecycle | recycle_bin_core.py:132-187 | a missing file fails with `File not found` and changes nothing; otherwise exactly one entry is added, keyed by the recycled basename, and the file moves to the recycled path |
| RecycleBin.RecycleBinCore.RestoreFromRecycle | recycle_bin_core.py:223-276 | an unknown id or a recycled file gone from disk fails with the source's messages and changes nothing; otherwise only that id leaves the metadata and the file moves to a free path, the requested one when it is free |
| RecycleBin.RecycleBinCore.DeletePermanently | recycle_bin_core.py:322-347 | an unknown id fails and changes nothing; a known id is removed, and its recycled file with it, even when that file is already gone |
| RecycleBin.RecycleBinCore.CleanupExpiredFiles | recycle_bin_core.py:368-392 | exactly the expired entries are removed with their files, the count is how many there were, and nothing expired remains |
| RecycleBin.CleanupIdempotent | recycle_bin_core.py:368-392 | a second purge at the same time finds nothing |
| RecycleBin.ExpiryIsMonotone | recycle_bin_core.py:379 | an entry expired now stays expired later |
| RecycleBin.RecycleBinCore.EmptyRecycleBin | recycle_bin_core.py:470-489 | exactly the entries of the given type (all of them when none is given) are removed and their recycled files leave the disk; the other entries and every other file stay, and the count is the number removed |
| RecycleBin.RecycleBinCore.DeleteAll | recycle_bin_core.py:383-387 | exactly the given entries leave the metadata and their files leave the disk |
| RecycleBin.CollectViews | recycle_bin_core.py:399-406 | every line collected is the listing line of an entry of the requested type, every such entry gets one, and no id appears twice |
| RecycleBin.RecycleBinCore.GetRecycledFiles | recycle_bin_core.py:394-414 | the list is newest first, holds only entries of the requested type, holds every such entry, and each id once |
| RecycleBin.RecycleBinCore.GetRecycleBinStats | recycle_bin_core.py:432-468 | the total is the number of entries and the total size the sum of their sizes; every configured type has an entry holding its icon, display name, the number of entries of that type and the sum of their sizes; the per-type counts add up to the total |
| RecycleBin.Statistics | recycle_bin_core.py:441-457 | the counting loop gives the same totals and per-type figures, each entry counted once whatever order the entries are visited in |
| RecycleBin.TypeCountIsCard | recycle_bin_core.py:452-456 | a type's count is the number of entries of that type |
| RecycleBin.EveryEntryCountedOnce | recycle_bin_core.py:449-456 | the per-type counts, over the configured types, add up to the number of entries |
| RecycleBin.TotalRemove | recycle_bin_core.py:449-456 | a sum over the entries is one entry's share plus the sum over the others, whichever entry is taken out |
| RecycleBin.RecycleBinCore.AddNewFileType | recycle_bin_core.py:530-545 | the type table gains or replaces that one entry; the entries and the disk are untouched |
| RecycleBin.ResolveRestoreConflicts | recycle_bin_core.py:278-291 | a free target is returned as is; otherwise `<name> (Restored n)<ext>` for the smallest n from 1 that is free |
| PasswordManager.StatusText | password_manager.py:290 | a failed attempt is reported as `failed_` followed by the stored counter in decimal |
| PasswordManager.NewConfig | password_manager.py:238-254 | the new config accepts the PIN and the answer with ASCII letters lower-cased, keeps the question, has no failures, no lockout, and is marked complete |
| PasswordManager.AttemptPin | password_manager.py:266-290 | a locked config answers `locked` and is not changed; otherwise the attempt time is recorded, a right PIN succeeds and clears the counter, a wrong one fails reporting the new counter; hashes and question never change |
| PasswordManager.WrongPinCounts | password_manager.py:280-290 | a wrong PIN below the limit adds one failure; the fifth locks for 3600 seconds from now and resets the counter, so it reports `failed_0` |
| PasswordManager.AttemptsStayBelowFive | password_manager.py:280-287 | the failure counter stays within 0..4 |
| PasswordManager.FiveStrikesLock | password_manager.py:280-290 | five wrong PINs from a clean state report 1, 2, 3, 4 and then 0, and lock until the fifth attempt's time plus 3600 |
| PasswordManager.LockoutRemaining | password_manager.py:335-347 | the remaining time is never negative and is positive exactly while locked |
| PasswordManager.LockoutBounded | password_manager.py:285-286 | after the locking attempt the remaining time lies within 0..3600 and reaches 0 exactly when the hour is over |
| PasswordManager.AnswerIsCaseInsensitive | password_manager.py:244-303 | an answer is accepted exactly when it equals the one set up once ASCII letters are lower-cased in both |
| PasswordManager.ResetConfig | password_manager.py:323-326 | the reset config accepts the new PIN, has no failures and no lockout, and keeps everything else |
| PasswordManager.ResetUnlocks | password_manager.py:316-333 | right after a reset the new PIN succeeds |
| PasswordManager.PasswordManager.LoadConfig | password_manager.py:189-217 | the config returned is the one on disk; the cache is refilled only when it was unusable (older than the file or dirty) and the file holds a config |
| PasswordManager.PasswordManager.SaveConfig | password_manager.py:219-232 | the config is written and the cache holds it, fresh and clean |
| PasswordManager.PasswordManager.IsFirstLaunch | password_manager.py:234-236 | first launch exactly when no config file exists |
| PasswordManager.PasswordManager.SetupPassword | password_manager.py:238-258 | the stored config is the new one and the answer is true |
| PasswordManager.PasswordManager.VerifyPin | password_manager.py:260-294 | no config gives `error` and no change; otherwise the answer and status are the attempt's, a locked attempt saves nothing and any other saves the updated config |
| PasswordManager.PasswordManager.VerifySecurityAnswer | password_manager.py:296-306 | true exactly when a config exists and accepts the answer |
| PasswordManager.PasswordManager.GetSecurityQuestion | password_manager.py:308-314 | the stored question, or none without a config |
| PasswordManager.PasswordManager.ResetPassword | password_manager.py:316-333 | succeeds exactly when a config exists, storing the reset config; otherwise nothing changes |
| PasswordManager.PasswordManager.GetLockoutTimeRemaining | password_manager.py:335-351 | the remaining lockout of the stored config, or 0 without one |
| PasswordManager.PasswordManager.ClearCache | password_manager.py:353-357 | the cache is emptied and marked dirty, so the next load reads the file |
| PasswordUI.Slots | password_ui.py:184-189 | the loop's text has two characters per slot: a dot for each entered digit, else `_`, each followed by a space |
| PasswordUI.StripSlots | password_ui.py:190 | stripping the loop's text gives the display |
| PasswordUI.PinDisplayShape | password_ui.py:182-190 | the display always shows four slots, a dot per entered digit then `_`, separated by single spaces |
| PasswordUI.LockingAttemptShowsFiveLeft | password_ui.py:431-434 | as written, the attempt that locks the vault for an hour reports `failed_0` and the screen says five attempts remain |
| PasswordUI.FailedFeedback | password_ui.py:431-438 | corrected: the lockout screen exactly when the store is locked, otherwise the attempts left |
| PasswordUI.FailedFeedbackMatchesLockout | password_ui.py:429-438 | with the correction, a wrong PIN shows the lockout screen exactly on the fifth failure, and otherwise a positive count of attempts left |
| PasswordUI.SplitFailedStatus | password_ui.py:430 | splitting `failed_<n>` on `_` gives `failed` and the number |
| PasswordUI.FailedCountOfStatus | password_ui.py:429-430 | reading a failed status back gives the counter the store reported |
| PasswordUI.GamePasswordUI.ShowFirstSetup | password_ui.py:21-63 | setup mode at step 1 with an empty display |
| PasswordUI.GamePasswordUI.ShowPasswordPrompt | password_ui.py:65-70 | leaves setup mode with an empty PIN and display |
| PasswordUI.GamePasswordUI.UpdatePinDisplay | password_ui.py:182-190 | the display shows as many dots as digits entered |
| PasswordUI.GamePasswordUI.AddDigit | password_ui.py:162-169 | a digit is appended only while fewer than four are entered, and processing is asked for exactly when the fourth arrives; with four already entered nothing changes |
| PasswordUI.GamePasswordUI.DeleteDigit | password_ui.py:171-175 | drops the last digit; an empty PIN is left alone |
| PasswordUI.GamePasswordUI.ClearPin | password_ui.py:177-180 | empties the PIN and the display |
| PasswordUI.GamePasswordUI.HandleSetupPin | password_ui.py:199-218 | step 1 moves the PIN to the confirmation and goes to step 2; in step 2 a match goes to step 3, a mismatch back to step 1 with both PINs cleared and an error |
| PasswordUI.GamePasswordUI.SelectSecurityQuestion | password_ui.py:305-308 | the chosen question is kept |
| PasswordUI.GamePasswordUI.SetCustomQuestion | password_ui.py:338-343 | a question is taken, stripped, exactly when it is not blank |
| PasswordUI.GamePasswordUI.CompleteSetup | password_ui.py:397-415 | a blank answer asks for one and stores nothing; otherwise the confirmed PIN, the question and the stripped answer are stored |
| PasswordUI.GamePasswordUI.VerifyPin | password_ui.py:417-441 | success grants access, a locked store shows the lockout screen, a failure shows the corrected feedback, an error denies access; the PIN is cleared after a wrong PIN or a denial |
| PasswordUI.GamePasswordUI.VerifySecurityAnswer | password_ui.py:551-557 | a right answer starts PIN reset at step 1 with empty PINs; a wrong one says so and changes nothing else |
| PasswordUI.GamePasswordUI.ShowPinReset | password_ui.py:559-564 | setup mode, step 1, both PINs cleared |
| VaultApp.KeyPress | main.py:84-91 | keys 24 and 273 are up, 25 and 274 are down, every other key is ignored |
| VaultApp.LastPresses | main.py:93-96 | the buffer keeps the last five presses, or all of them when there are fewer |
| VaultApp.PushKeepsLastPresses | main.py:93-96 | appending a press and dropping the oldest beyond five gives the last five presses of the longer history |
| VaultApp.OpensExactlyOnPattern | main.py:102 | the buffer equals up, down, up, down, up exactly when the last five presses of the whole history are that pattern |
| VaultApp.VaultApp.OnKeyDown | main.py:83-107 | a volume or arrow key is consumed and recorded; the vault opens exactly when the last five presses match the pattern, and then the status line is the vault-open one; a non-matching press on the game screen shows the buffer in the status, elsewhere the status stays; other keys change nothing |
| VaultApp.VaultApp.StartGame | main.py:109-112 | on the game screen the status line says the game is running; on any other screen it is unchanged |
| VaultApp.VaultApp.OpenVault | main.py:119-216 | the vault is open on its main screen and the status line says the vault is open |
| VaultApp.VaultApp.BackToGame | main.py:232-235 | the vault is closed, the buffer is empty and the game screen shows the ready status |
| Multipart.SplitOn | file_transfer_server.py:327 | no piece of the split contains the separator |
| Multipart.SplitOnJoin | file_transfer_server.py:327 | joining the pieces with the separator gives the text back |
| Multipart.SplitOnPieceInText | file_transfer_server.py:327-330 | whatever a piece contains, the whole text contains |
| Multipart.BoundaryIn | file_transfer_server.py:297-301 | no boundary exactly when no stripped parameter starts with `boundary=`; otherwise the value, quotes stripped, of the first one that does |
| Multipart.BoundaryOfContentType | file_transfer_server.py:295-301 | the boundary of `multipart/form-data; boundary=<b>` is `<b>` |
| Multipart.FilenameInLine | file_transfer_server.py:308-314 | a filename found holds no quote and its line contains `filename=` |
| Multipart.FilenameInLines | file_transfer_server.py:303-317 | the filename of the first header line that yields one; none exactly when no line does |
| Multipart.FilenameNeedsMarker | file_transfer_server.py:272-273 | a filename is only found in a buffer containing `filename=` |
| Multipart.PartContent | file_transfer_server.py:331-352 | the filename comes from the lines before the first blank line, and the data is what follows it, less one trailing line break |
| Multipart.FirstFilePart | file_transfer_server.py:329-354 | the first piece naming a file with form-data headers and a blank line is parsed; none exactly when no piece qualifies |
| Multipart.BodyPieces | file_transfer_server.py:327 | a one-file body splits at the delimiter into an empty preamble, the part and the closing tail |
| Multipart.SecondPartIsFile | file_transfer_server.py:329-354 | the first part that has a file's shape is the one taken |
| Multipart.ParseMultipartUpload | file_transfer_server.py:319-324 | the upload fails with `Upload boundary not found` exactly when the content type gives no boundary or an empty one |
| Multipart.ParseUploadRoundTrip | file_transfer_server.py:319-354 | a one-file body built from a boundary, a disposition naming the file, a content type and data parses back to that filename and that data |
| Multipart.StreamedData | file_transfer_server.py:276-286 | once the headers end, what is written is a suffix of what was received; before, nothing is written |
| Multipart.StreamedDataGrows | file_transfer_server.py:283-286 | after the headers, every later chunk is written whole |
| Multipart.StreamKeepsClosingDelimiter | file_transfer_server.py:276-286 | as written, the streamed file of a one-file upload is the data followed by a line break and the closing delimiter, so it differs from the data sent |
| Multipart.StreamedFileData | file_transfer_server.py:276-286 | corrected: the written bytes up to the first line break followed by the delimiter |
| Multipart.CutAtClosing | file_transfer_server.py:276-286 | the result is a prefix of what was written, ending where the first line break plus delimiter starts, or all of it when there is none |
| Multipart.StreamedFileDataMatchesInMemory | file_transfer_server.py:244-354 | with the correction, the streamed route and the in-memory route both give back the data of a one-file upload |
| Multipart.NoteFilename | file_transfer_server.py:272-273 | a filename already found (and not empty) is kept; otherwise the one in the buffer is taken |
| Multipart.StreamParseMultipart | file_transfer_server.py:244-293 | the loop reads content-length bytes or what the client sent, each read asking for at most 64 KiB and no more than remains; what is written is the streamed data of what was read; the filename is the one in the first chunk when that has one |
| Multipart.FirstChunkEnd | file_transfer_server.py:263-264 | the first read takes something when anything is expected and sent, and never more than was sent |
| FileTransfer.CleanUrl | file_transfer_server.py:45 | the cleaned request target holds no tab, carriage return or line feed |
| FileTransfer.SplitScheme | file_transfer_server.py:45 | without a scheme the whole target is the rest |
| FileTransfer.StripParams | file_transfer_server.py:45 | the path without `;` parameters is a prefix of the path, and a path without `;` is kept whole |
| FileTransfer.PlainPathParsed | file_transfer_server.py:45 | the parsed path of an origin-form path without query, fragment or parameters is that path |
| FileTransfer.QueryIgnored | file_transfer_server.py:45 | a query string does not change the parsed path |
| FileTransfer.RouteGet | file_transfer_server.py:44-54 | a download route carries exactly what follows `/download/` in the parsed path |
| FileTransfer.DownloadRouted | file_transfer_server.py:51-52 | `/download/<relative>`, with or without a query, is routed as a download of `<relative>` |
| FileTransfer.PostHonoursNoQuery | file_transfer_server.py:56-60 | POST compares the raw target, so `/upload` is accepted and `/upload?<query>` is not, while GET on `/api/files?<query>` still lists files |
| FileTransfer.UploadGate | file_transfer_server.py:183-201 | a length of 0 is refused as no data and one over 5 GiB as too large; over 100 MiB is streamed; everything else, negative lengths included, is read in memory |
| FileTransfer.NegativeLengthReadInMemory | file_transfer_server.py:187-201 | a negative length passes both gates and takes the in-memory route |
| FileTransfer.ReadBody | file_transfer_server.py:209 | the body read is a prefix of what the client sent: content-length bytes, or everything for a negative length |
| FileTransfer.InMemoryUpload | file_transfer_server.py:207-219 | an accepted upload has a non-empty filename and non-empty data |
| FileTransfer.InMemoryNeedsFormData | file_transfer_server.py:211-212 | a content type without `multipart/form-data` fails with `Invalid upload format` |
| FileTransfer.InMemoryUploadParsed | file_transfer_server.py:207-219 | an accepted upload is the file part the parser found |
| FileTransfer.InMemoryUploadRoundTrip | file_transfer_server.py:207-219 | a well-formed one-file body with a name and data is accepted as exactly that name and data |
| FileTransfer.ReceiveLarge | file_transfer_server.py:221-242 | not form-data or no boundary fail with the source's messages; an accepted upload has a non-empty quote-free name and the corrected streamed data; a filename in the first chunk is the one taken |
| FileTransfer.StreamedLength | file_transfer_server.py:262-266 | the streamed route reads content-length bytes or what was sent, whichever is fewer |
| FileTransfer.StreamedUploadKeepsData | file_transfer_server.py:221-242 | with the correction, the streamed route recovers the data of a well-formed one-file body |
| FileTransfer.ParseUpload | file_transfer_server.py:197-201 | the in-memory route's result is the in-memory parse; an accepted upload has a filename |
| FileTransfer.CategorizeFileByExtension | file_transfer_server.py:696-710 | the category is always one of the four; photos, videos and audio exactly when the extension, ASCII letters lower-cased, is in that list |
| FileTransfer.ExtensionListsDisjoint | file_transfer_server.py:700-704 | no extension is in two lists, so the scan order does not matter |
| FileTransfer.Truncate | file_transfer_server.py:720 | the truncated name is a prefix of at most the limit, and a short name is kept |
| FileTransfer.FallbackName | file_transfer_server.py:718 | the fallback name is made of safe characters and starts with `u` |
| FileTransfer.SafeFilenameCanBeBlank | file_transfer_server.py:714-720 | as written, 255 spaces then `a` pass the blank test before truncation and come out as 255 spaces |
| FileTransfer.EnsureSafeFilename | file_transfer_server.py:712-720 | corrected: the name has 1 to 255 safe characters, no slash, is not blank, and is the filtered, truncated name whenever that is not blank |
| FileTransfer.SafeFilenameKeepsSafeNames | file_transfer_server.py:712-720 | a name that is already safe, short and not blank is kept |
| FileTransfer.SafeFilenameIdempotent | file_transfer_server.py:712-720 | sanitising twice gives what sanitising once gives |
| FileTransfer.ConflictNameShape | file_transfer_server.py:727-734 | the n-th candidate is the directory joined with `<name>_<n><ext>` |
| FileTransfer.ConflictResolvedUnique | file_transfer_server.py:722-737 | the resolved path is determined by the existing paths and the request |
| FileTransfer.ResolveFilenameConflict | file_transfer_server.py:722-737 | a free path is kept; otherwise `<name>_<n><ext>` for the smallest n from 1 that is free |
| FileTransfer.SplitFirstSlash | file_transfer_server.py:636-640 | no split exactly when there is no slash; otherwise a slash-free head and the rest, which together give the input |
| FileTransfer.TraversalGuardNeverFires | file_transfer_server.py:646-651 | joining a directory with a basename always starts with the directory, so the traversal check never refuses |
| FileTransfer.ParentCategoryEscapes | file_transfer_server.py:633-653 | as written, `../<name>` resolves to the vault root's parent |
| FileTransfer.ResolveFilePath | file_transfer_server.py:633-657 | corrected: a resolved path is always a known category's directory joined with a slash-free name |
| FileTransfer.ListedPathResolves | file_transfer_server.py:633-653 | `<category>/<name>` for a known category resolves to that category's directory joined with the name |
| FileTransfer.UnknownCategoryRefused | file_transfer_server.py:641-644 | corrected: any category outside the four resolves to nothing |
| FileTransfer.ScanChangesIff | file_transfer_server.py:547-573 | a change is reported exactly when some category directory has a recorded time different from its current one |
| FileTransfer.FirstScanUnchanged | file_transfer_server.py:562-564 | the first scan only records times and reports no change |
| FileTransfer.ScanAgreeing | file_transfer_server.py:558-573 | when every recorded time is current, nothing changes and nothing is reported |
| FileTransfer.ScanSettles | file_transfer_server.py:547-573 | after a scan that reports nothing, the next identical scan reports nothing and changes nothing |
| FileTransfer.ScanRecords | file_transfer_server.py:558-573 | a scan that reports nothing has recorded the current time of every existing category |
| FileTransfer.ScanKeeps | file_transfer_server.py:558-568 | a category already up to date stays recorded with its time |
| FileTransfer.TransferServer.HasFilesChanged | file_transfer_server.py:547-577 | the loop's answer and the new recorded times are those of the scan |
| FileTransfer.TransferServer.InvalidateCache | file_transfer_server.py:579-584 | the cached listing and the file times are dropped |
| FileTransfer.TransferServer.SaveToVault | file_transfer_server.py:659-694 | a file where the category directory should be makes the save fail and change nothing; otherwise the directory is created and the data lands at the free version of the safe name, a path that did not exist |
| FileTransfer.TransferServer.HandleGet | file_transfer_server.py:128-161 | corrected: a download whose path resolves to a vault file serves that file's basename and content; a resolved directory gets the 200 headers and no body; an unresolved or missing path gets 404; and any file response is some vault file |
| FileTransfer.TransferServer.ReceiveFile | file_transfer_server.py:180-205 | corrected: a refused size returns its refusal message and an in-memory parse error its error, both changing nothing; a success stores an upload that the gate's route delivers (the in-memory parse, or the streamed body cut at the closing delimiter) at the free version of its safe name, a path that did not exist, with every other file kept, reports the name, size and saved basename, and drops the cache |
| FileTransfer.TransferServer.SaveFile | file_transfer_server.py:359 | the upload lands at a path that did not exist, or nothing changes |
| FileTransfer.TransferServer.StoreUpload | file_transfer_server.py:356-374 | a failed save reports `Failed to save file to vault` and changes nothing; a success writes exactly the upload's data at the free version of its safe name in its category's directory, a path that did not exist, keeps every other file, reports the name, size and saved basename, and drops the cache |
| Contacts.SplitColon | contact_manager.py:124 | splitting at the first colon gives a colon-free head and a rest that rebuild the line |
| Contacts.PhoneTypePrecedence | contact_manager.py:127-135 | the phone type is Mobile when CELL or MOBILE appears, else Home, Work, Fax in that order, else Other, each in both directions |
| Contacts.HomeWorkType | contact_manager.py:157-161 | the type is Home when HOME appears, else Work when WORK appears, else Other |
| Contacts.ParsePhoneLine | contact_manager.py:117-146 | no colon gives nothing; otherwise the raw number is the stripped rest, the type follows the parameters, and the clean number holds only digits, `+`, `-`, parentheses and blanks |
| Contacts.CleanNumberKeepsPhoneChars | contact_manager.py:138 | a number already made of those characters is kept unchanged |
| Contacts.ParseEmailLine | contact_manager.py:148-168 | no colon gives nothing; otherwise the stripped rest with its Home/Work/Other type |
| Contacts.Component | contact_manager.py:190-199 | one address component is kept exactly when it exists and is not empty |
| Contacts.ReadablePartsAreComponents | contact_manager.py:186-199 | the readable parts are at most five: exactly the non-empty street, city, state, postal code and country fields |
| Contacts.ReadablePartsAllPresent | contact_manager.py:190-199 | with all five present, they are kept in order |
| Contacts.ParseAddressLine | contact_manager.py:170-209 | no colon gives nothing; otherwise the raw text, the type, and the readable parts joined with `, ` |
| Contacts.SetField | contact_manager.py:86-103 | setting one single-valued field changes that field and nothing else |
| Contacts.ParseLinesNext | contact_manager.py:57-60 | the loop handles each stripped line in order |
| Contacts.BlankIgnored | contact_manager.py:59-60 | a blank line changes nothing |
| Contacts.ParseVcfContact | contact_manager.py:39-111 | the loop's contact is the fold of the line step over the lines, named at the end |
| Contacts.MultiValuedProperty | contact_manager.py:74-95 | a line is read as a phone, an email or an address exactly when it starts with TEL, EMAIL or ADR |
| Contacts.SingleValuedProperty | contact_manager.py:86-103 | a line sets the organisation, title, note, birthday or website exactly when it starts with that field's prefix |
| Contacts.StepPhones | contact_manager.py:74-77 | a line adds its parsed phone, if any, and keeps the others |
| Contacts.StepEmails | contact_manager.py:80-83 | a line adds its parsed email, if any, and keeps the others |
| Contacts.StepAddresses | contact_manager.py:92-95 | a line adds its parsed address, if any, and keeps the others |
| Contacts.ParseLinesPhones | contact_manager.py:57-77 | the phones are those of the TEL lines, in file order |
| Contacts.ParseLinesEmails | contact_manager.py:57-83 | the emails are those of the EMAIL lines, in file order |
| Contacts.ParseLinesAddresses | contact_manager.py:57-95 | the addresses are those of the ADR lines, in file order |
| Contacts.StepSingleValued | contact_manager.py:86-103 | a line with a field's prefix sets that field to its stripped value; any other keeps it |
| Contacts.LastLineWins | contact_manager.py:86-103 | each single-valued field holds the value of its last line, or its initial value when there is none |
| Contacts.StepName | contact_manager.py:63-71 | `FN:` sets the name; a structured name only fills an empty one; other lines leave it |
| Contacts.FullNameWins | contact_manager.py:63-64 | a non-empty last `FN:` value is the name, whatever `N:` lines say |
| Contacts.NameUntouched | contact_manager.py:63-71 | without name lines the name is what it started as |
| Contacts.FinishNamesContact | contact_manager.py:105-109 | a named contact keeps its name; an unnamed one takes its first phone's number, or `Unknown Contact` without phones; nothing else changes |
| Contacts.CallTarget | contact_manager.py:211-228 | an accepted number opens `tel:` and the number as given; a refusal says `Invalid phone number` |
| Contacts.CallNeedsDialChar | contact_manager.py:216-218 | the number is refused exactly when it has no digit and no `+` |
| DocumentVault.FirstListing | document_vault_core.py:168-172 | the category found lists the extension and no earlier category does; none found means none does |
| DocumentVault.DetectFileCategory | document_vault_core.py:155-175 | an empty name is `other`; otherwise no category exactly when the extension is an excluded media type; any answer is a known category |
| DocumentVault.DetectFirstListed | document_vault_core.py:168-172 | a supported file goes to the first category, in table order, that lists its extension |
| DocumentVault.DetectUnlisted | document_vault_core.py:174-175 | a supported file with an unlisted extension goes to `other` |
| DocumentVault.KeyIsPresentation | document_vault_core.py:44-87 | `.key`, listed by both presentations and certificates, is a presentation |
| DocumentVault.SqlIsCode | document_vault_core.py:52-73 | `.sql`, listed by both code and data, is code |
| DocumentVault.CompoundExtensionsNeverMatch | document_vault_core.py:60 | the extension of a name is never `.tar.gz`, `.tar.bz2` or `.tar.xz`, so those entries never match |
| DocumentVault.DigitRun | document_vault_core.py:393 | the longest run of leading digits |
| DocumentVault.MatchVaultName | document_vault_core.py:393-397 | a captured name comes from a name starting `vault_`, is not empty and stops before any line break |
| DocumentVault.OriginalName | document_vault_core.py:393-397 | a name not starting `vault_` is its own original name |
| DocumentVault.OriginalNameOfImport | document_vault_core.py:337-338 | the original name of a file stored as `vault_<stamp>_<name>` is `<name>` |
| DocumentVault.DirDocuments | document_vault_core.py:385-410 | every document found in a category folder is tagged with that category; an unknown category yields none |
| DocumentVault.CollectCategories | document_vault_core.py:379-410 | every document collected belongs to one of the categories checked, and to a known one |
| DocumentVault.ListingSorted | document_vault_core.py:416 | the listing is newest first and is a permutation of the documents collected |
| DocumentVault.ListingCategories | document_vault_core.py:379-410 | a filtered listing holds only documents of that category |
| DocumentVault.UnknownFilterListsNothing | document_vault_core.py:379-409 | a filter naming no category lists nothing |
| DocumentVault.ListingComplete | document_vault_core.py:379-410 | every file in a checked category's folder is listed |
| DocumentVault.DirDocumentsComplete | document_vault_core.py:385-410 | every file in a category's directory is listed |
| DocumentVault.AppendDirectory | document_vault_core.py:385-410 | the loop over one folder appends exactly that folder's documents |
| DocumentVault.Walk | document_vault_core.py:381-410 | the loop over the categories collects their documents in order |
| DocumentVault.GetVaultDocuments | document_vault_core.py:374-417 | the result is the newest-first listing |
| DocumentVault.ZeroStats | document_vault_core.py:457-466 | every category starts with a count of 0, and only categories have entries |
| DocumentVault.CountDocuments | document_vault_core.py:471-475 | the loop leaves each category's count at the number of its documents |
| DocumentVault.GetCategoryStats | document_vault_core.py:455-484 | every category is reported with the number of listed documents in it |
| DocumentVault.StatsCountEveryDocument | document_vault_core.py:455-484 | applied to the vault's own listing: every listed document is in a known category, so the statistics count each of them once |
| DocumentVault.CountsSumToTotal | document_vault_core.py:468-484 | for any list of documents each in a known category, the per-category counts add up to its length |
| DocumentVault.ExportDocument | document_vault_core.py:486-533 | a missing document fails with `Document not found`; a missing, absent or unwritable folder asks for a folder; otherwise the copy lands at the free version of the original name in that folder |
| DocumentVault.FileLines | document_vault_core.py:558 | no line read holds a line break |
| DocumentVault.FileLinesRebuild | document_vault_core.py:558 | the lines read, joined with line breaks, give back the text as universal newlines translate it, less a final line break |
| DocumentVault.UniversalKeepsPlainText | document_vault_core.py:558 | a text without carriage returns is read unchanged |
| DocumentVault.UniversalIdempotent | document_vault_core.py:558 | reading the translated text again changes nothing |
| DocumentVault.ReturnsReadAsBreaks | document_vault_core.py:558 | a lone carriage return and a carriage return before a line feed each read as one line break |
| DocumentVault.FileLinesHaveNoReturn | document_vault_core.py:558 | no line read holds a carriage return |
| DocumentVault.RStripAll | document_vault_core.py:561 | each kept line is its line with trailing blanks removed |
| DocumentVault.EmptyFilePreviewFails | document_vault_core.py:558-570 | as written, an empty text file fails, because the line index is never bound; corrected, it previews as empty with 0 lines |
| DocumentVault.PreviewAsWritten | document_vault_core.py:535-592 | as written, the preview agrees with the corrected one except where it fails on the unbound line index |
| DocumentVault.PreviewTruncation | document_vault_core.py:535-584 | a preview exists exactly for a text extension with decodable content; it is truncated exactly when the file has more lines than the limit, and then reports one line more than the limit |
| DocumentVault.PreviewShowsLeadingLines | document_vault_core.py:556-563 | the preview shows the first lines, up to the limit, each right-stripped |
| DocumentVault.ReadLines | document_vault_core.py:557-561 | the loop keeps the first lines up to the limit, right-stripped, and stops early exactly when there are more |
| DocumentVault.GetDocumentPreview | document_vault_core.py:535-592 | the result is the corrected preview |
| Export.Refusal | document_vault_core.py:489-509 | an export goes ahead exactly when the source exists and a folder is given that exists and is writable; a missing source does not ask for a folder, every other refusal does |
| Export.PlacedUnique | document_vault_core.py:511-519 | the export path is determined by the existing paths and the target |
| Export.ExportFile | document_vault_core.py:486-533 | a refusal changes nothing; otherwise the copy lands at the target or `<name> (n)<ext>` for the smallest free n, and only that path is added |
| Naming.NumberedInjective | recycle_bin_core.py:288 | different counters give different names |
| Naming.FirstFreeCounter | recycle_bin_core.py:285-291 | the loop returns the smallest counter from 1 whose name is free, and it is at most one more than the number of existing paths |
| Naming.FirstFreeUnique | recycle_bin_core.py:285-291 | the first free counter is unique |
| Naming.ResolvedUnique | file_transfer_server.py:722-737 | the resolved name is determined by the existing paths and the request |
| Naming.ResolveConflict | file_transfer_server.py:722-737 | a free name is kept; otherwise the first free numbered one |
| AudioVault.GetAudioFormat | audio_vault_core.py:117-120 | a listed extension (ASCII letters lower-cased) gives its description, and exactly the unlisted ones give `Unknown Audio` |
| AudioVault.AudioFileIffKnownFormat | audio_vault_core.py:109-120 | an existing file is an audio file exactly when its format is known |
| AudioVault.StoredFormatMatches | audio_vault_core.py:297-303 | the vault copy `audio_<id><ext>` keeps the original's extension, so its format is the original's |
| AudioVault.Pad2 | audio_vault_core.py:384 | seconds are shown as exactly two digits |
| AudioVault.Pad2Value | audio_vault_core.py:384 | the two digits read back as the number |
| AudioVault.DurationStrRoundTrip | audio_vault_core.py:380-386 | a known non-zero duration shown as `m:ss` reads back as that duration; an unknown or zero one is shown as `Unknown` |
| AudioVault.MatchingSound | audio_vault_core.py:359-388 | every file listed comes from a record that matches the search |
| AudioVault.MatchingFind | audio_vault_core.py:359-388 | every record that matches the search is listed |
| AudioVault.NoQueryListsAll | audio_vault_core.py:361 | without a search every record is listed, in order |
| AudioVault.MatchingRecords | audio_vault_core.py:359-388 | the loop lists the display form of the matching records in order |
| AudioVault.SortFilesPermutes | audio_vault_core.py:390-398 | sorting keeps exactly the same files |
| AudioVault.SortFilesOrders | audio_vault_core.py:390-398 | corrected: newest, largest and longest first, names ascending once ASCII letters are lower-cased, an unknown duration counting as 0 |
| AudioVault.DurationSortLosesListing | audio_vault_core.py:397-404 | as written, one file of unknown duration among two or more makes the duration sort raise, so the listing is empty |
| AudioVault.InOrder | audio_vault_core.py:359 | the records in the order they were added |
| AudioVault.Incr | audio_vault_core.py:529 | counting a format keeps the other formats and adds that one |
| AudioVault.FormatCounts | audio_vault_core.py:527-529 | each format present is counted with the number of records of that format, and no other |
| AudioVault.RecentCount | audio_vault_core.py:531-534 | the recent count is at most the number of records |
| AudioVault.FormatsSumToTotal | audio_vault_core.py:507-529 | applied to the vault's records in insertion order, where each id appears once: the format counts add up to the number of records in the vault |
| AudioVault.FormatCountsTotal | audio_vault_core.py:527-529 | for any sequence of records, the per-format counts add up to its length |
| AudioVault.RemoveId | audio_vault_core.py:445 | removing an id from the order keeps every other id |
| AudioVault.Vault.AddAudioFile | audio_vault_core.py:288-336 | a missing or non-audio source fails with `Not a valid audio file` and changes nothing; otherwise the new record is stored under its id and the file moves into the vault |
| AudioVault.Vault.GetAudioFiles | audio_vault_core.py:352-400 | the matching records in display form, in the corrected sort order |
| AudioVault.Vault.DeleteAudioFile | audio_vault_core.py:410-465 | an unknown id, a file missing on disk, or a refusing recycle bin fails with the source's message and changes nothing; otherwise the record, its file and its thumbnail go, and the answer says whether the bin took the file |
| AudioVault.Vault.ExportAudioFile | audio_vault_core.py:467-487 | an unknown id or a missing file fails with the source's message; otherwise the copy is made at the destination |
| AudioVault.Vault.UpdateAudioTags | audio_vault_core.py:489-502 | an unknown id fails; otherwise only that record's tags change |
| AudioVault.Vault.GetVaultStatistics | audio_vault_core.py:504-540 | the total is the number of records, with the format counts and the count added in the last seven days |
| SecureStorage.TypedDirectory | secure_storage.py:250-266 | an empty file type gives the root; any other names a path ending in that type |
| SecureStorage.TypedDirectoryNamesType | secure_storage.py:255-256 | the typed directory's last component is the type |
| SecureStorage.Under | secure_storage.py:190-204 | one sub-directory of the root per type, in order |
| SecureStorage.LayoutCoversTypes | secure_storage.py:185-205 | the layout holds the vault and recycle roots and the directory of every vault type and recycle type |
| SecureStorage.AnyPrefixOf | secure_storage.py:328-330 | true exactly when some pattern is a prefix |
| SecureStorage.BaseUnderCwdIsAccessible | secure_storage.py:325-330 | a base directory under the working directory counts as user-accessible |
| SecureStorage.SecurityIssues | secure_storage.py:401-419 | no issue exactly when the base exists, is not user-accessible, and is on Android or has mode 700 |
| SecureStorage.Recommendations | secure_storage.py:432-448 | the list opens with the private-location advice when the storage is easy to reach, then the 700-permission advice when neither Android nor Windows, and always ends with the three standing recommendations; nothing else is in it |
| SecureStorage.Storage.EnsureSecureDirectories | secure_storage.py:177-224 | the first call creates every directory of the layout, later calls change nothing |
| SecureStorage.Storage.CreateMissing | secure_storage.py:209-213 | the loop leaves every listed directory present and adds nothing else |
| SecureStorage.Storage.GetVaultDirectory | secure_storage.py:250-257 | the typed vault directory, the layout being created first if need be |
| SecureStorage.Storage.GetRecycleDirectory | secure_storage.py:259-266 | the typed recycle directory, the layout being created first if need be |
| SecureStorage.Storage.StoreFileSecurely | secure_storage.py:274-314 | a missing source fails with `Source file not found` and changes nothing; otherwise the copy lands at the target, or at `<name>_<n><ext>` for the smallest free n, a path that did not exist, and only it is added |
| SecureStorage.Storage.FreshInfo | secure_storage.py:345-387 | the storage counts as secure exactly when it is not user-accessible; no base directory means zero files and bytes |
| SecureStorage.Storage.GetStorageInfo | secure_storage.py:334-394 | a cached report younger than 300 seconds is returned unchanged; otherwise a fresh one is computed and cached with the time |
| SecureStorage.Storage.VerifySecurity | secure_storage.py:396-431 | a cached report is returned; otherwise the issues and recommendations are computed and cached; a report is secure exactly when it has no issues |
| SecureStorage.Storage.ClearCache | secure_storage.py:451-458 | both caches are emptied |
| PhotoVault.ClashCandidate | photo_vault_core.py:228-232 | the n-th candidate is the vault directory joined with `<name> (n)<ext>` |
| PhotoVault.Images | photo_vault_core.py:216-221 | only selected paths that are images are imported |
| PhotoVault.SelectionNext | photo_vault_core.py:216-237 | each selected path is either imported or noted as `<basename> (not an image)`, in order |
| PhotoVault.ImagesAndSkips | photo_vault_core.py:216-241 | every selected path is imported or skipped, never both |
| PhotoVault.ImportsSnoc | photo_vault_core.py:216-237 | placing one more image after the earlier ones keeps the import record consistent |
| PhotoVault.ImportsFresh | photo_vault_core.py:224-237 | no import overwrites an existing file or another import |
| PhotoVault.ImportKeepsFreeName | photo_vault_core.py:224-229 | an image whose own name is free in the vault keeps it |
| PhotoVault.Vault.SelectPhotos | photo_vault_core.py:88-98 | a selection starts only when none is in progress, and one is in progress afterwards |
| PhotoVault.Vault.FinishImport | photo_vault_core.py:260-263 | no selection is in progress afterwards |
| PhotoVault.Vault.ImportOne | photo_vault_core.py:224-237 | the copy lands at the image's own name in the vault, or `<name> (n)<ext>` for the smallest free n, and only it is added |
| PhotoVault.Vault.ImportNext | photo_vault_core.py:216-237 | one more pass of the loop extends the import record and adds only the new copy |
| PhotoVault.Vault.HandleSelection | photo_vault_core.py:205-263 | every image is copied to a fresh name in order, every non-image is noted as skipped, only the copies are added, and the processing flag is cleared |
| PhotoVault.Vault.DeletePhoto | photo_vault_core.py:279-306 | with a recycle bin the answer is the bin's and the photo leaves the vault on success; without one, an existing photo is removed and a missing one is reported as a failure |
| PhotoVault.Vault.ExportPhoto | photo_vault_core.py:308-349 | a missing photo fails with `Photo not found`; a missing, absent or unwritable folder asks for a folder; otherwise the copy lands at the free version of the photo's name there |
| VideoVaultOps.FreshEntries | video_vault_operations.py:270-286 | cleanup keeps exactly the entries cached within the last seven days (a missing time counting as 0), each unchanged |
| VideoVaultOps.FreshIdempotent | video_vault_operations.py:270-286 | a second cleanup at the same time removes nothing |
| VideoVaultOps.NewEntrySurvives | video_vault_operations.py:163-167 | an entry just cached survives the cleanup that follows it |
| VideoVaultOps.VideoFiles | video_vault_operations.py:331-335 | the listing holds at most one path per directory entry |
| VideoVaultOps.VideoFilesNext | video_vault_operations.py:333-335 | each directory entry with a video extension adds its joined path, in listing order |
| VideoVaultOps.VideoFilesSound | video_vault_operations.py:333-335 | every listed video comes from a directory entry with a video extension |
| VideoVaultOps.VideoFilesFind | video_vault_operations.py:333-335 | every directory entry with a video extension is listed |
| VideoVaultOps.VideoFilesComplete | video_vault_operations.py:333-335 | a video is listed exactly when some directory entry with a video extension names it |
| VideoVaultOps.PathsOf | video_vault_operations.py:336 | the result is the files' paths, in order |
| VideoVaultOps.VaultVideosListing | video_vault_operations.py:328-339 | the vault listing is exactly the video files, newest first |
| VideoVaultOps.ListVideoFiles | video_vault_operations.py:330-335 | the loop collects exactly the video files of the listing |
| VideoVaultOps.VideoVault.constructor | video_vault_operations.py:132-134 | the vault starts with the loaded cache, which is also what is saved |
| VideoVaultOps.VideoVault.CleanupCache | video_vault_operations.py:270-292 | the stale entries are removed, and the cache file is saved exactly when some were |
| VideoVaultOps.VideoVault.GetVideoInfo | video_vault_operations.py:135-172 | a file that cannot be stat-ed gives Unknown and changes nothing; a cache hit is returned unchanged; a miss is stored with the current time, survives the cleanup that follows, stale entries go, and the cache is saved exactly when some entry went stale |
| VideoVaultOps.VideoVault.GetVaultVideos | video_vault_operations.py:328-339 | an absent vault lists nothing; otherwise the video files, newest first |
| VideoVaultOps.VideoVault.ExportVideo | video_vault_operations.py:597-638 | a missing video fails with `Video not found`; a missing, absent or unwritable folder asks for a folder; otherwise the copy lands at the free version of the video's name there and only it is added |
| VideoCore.CleanupSettles | video_vault_core_optimized.py:131-148 | after a cleanup only paths whose removal failed stay registered, and a second cleanup over the resulting disk removes nothing |
| VideoCore.CleanupStep | video_vault_core_optimized.py:135-142 | one pass of the loop removes an existing removable path, keeps an undeletable one registered, and drops one already gone |
| VideoCore.TryRemoveAll | video_vault_core_optimized.py:131-148 | the loop removes and counts exactly the existing removable paths and keeps exactly the undeletable ones |
| VideoCore.ResourceManager.constructor | video_vault_core_optimized.py:48-54 | nothing is registered and no timer is scheduled |
| VideoCore.ResourceManager.RegisterTempFile | video_vault_core_optimized.py:66-69 | a non-empty path is added; None and the empty path are ignored |
| VideoCore.ResourceManager.RegisterReader | video_vault_core_optimized.py:56-59 | a reader is added; None is ignored |
| VideoCore.ResourceManager.RegisterPlayer | video_vault_core_optimized.py:61-64 | a player is added; None is ignored |
| VideoCore.ResourceManager.CleanupTempFiles | video_vault_core_optimized.py:131-148 | existing removable files are deleted and counted, undeletable ones stay registered, missing ones are dropped |
| VideoCore.ResourceManager.FullCleanup | video_vault_core_optimized.py:150-163 | readers and players are cleared, temporary files cleaned, and the total counts all three |
| VideoCore.ResourceManager.SchedulePeriodicCleanup | video_vault_core_optimized.py:165-169 | the timer starts only the first time, so exactly one ever runs |
| VideoCore.ResourceManager.PeriodicCleanup | video_vault_core_optimized.py:171-183 | a full cleanup runs exactly when there are more than 5 readers, more than 3 players or more than 10 temporary files, and otherwise nothing changes |
| VideoCore.ListedExtIsVideo | video_vault_core_optimized.py:294-297 | a path whose extension is in the list counts as a video |
| VideoCore.SuffixNotExtension | video_vault_core_optimized.py:294-297 | the test is by suffix: a file named only `.mp4` counts although it has no extension |
| VideoCore.ThumbnailName | video_vault_core_optimized.py:405-407 | the thumbnail's file name is the video's stem followed by `_thumb.jpg` |
| VideoCore.GetThumbnailPath | video_vault_core_optimized.py:403-414 | the thumbnail path is returned exactly when that file exists |
| VideoCore.GenerateThumbnailSafe | video_vault_core_optimized.py:299-369 | an existing thumbnail is returned untouched; otherwise it is written when writing succeeds, and the path is returned either way |
| VideoCore.GeneratedThumbnailFound | video_vault_core_optimized.py:299-414 | a thumbnail generated successfully is found by get_thumbnail_path |

## Left out

General:

- Threads, thread pools, locks and `Clock` callbacks are left out. Each operation runs start to finish with nothing interleaved, and a scheduled callback is modelled as a direct call.
- Rendering is left out: widgets, popups, pygame drawing, HTML pages, QR codes and log messages. What a screen would show is returned as a value where the source branches on it.
- Exceptions that the source catches and prints are modelled only where they pick a different result. Otherwise they are left out.
- Fernet, PBKDF2, mutagen, PIL, imageio, ffprobe, the MIME guess and Python's parser are parameters or opaque inputs, not models. bcrypt is modelled as an ideal hash that keeps the whole secret, so a secret's bytes past the 72nd are never ignored.
- The clock and randomness are parameters, and so is the order `os.listdir` returns.
- Floating point is replaced by whole numbers:
  - time in seconds, or milliseconds in the game;
  - the shuffle speed in hundredths;
  - durations in whole seconds;
  - sizes in bytes.
- Strings.Lower: lower-cases the ASCII letters A to Z only, where Python's `str.lower` also lowers every other cased Unicode letter. The members that compare or look up lower-cased text inherit this. Those are SecureIntegration.MatchesAny, RecycleBin.DetectFileType, PasswordManager.NewConfig, PasswordManager.AnswerIsCaseInsensitive, PasswordManager.PasswordManager.VerifySecurityAnswer, PasswordUI.GamePasswordUI.VerifySecurityAnswer, FileTransfer.CategorizeFileByExtension, DocumentVault.DetectFileCategory, AudioVault.GetAudioFormat, AudioVault.MatchingFind and AudioVault.SortFilesOrders.
- SecureIntegration.MatchesAny: ASCII lower-casing only (see Strings.Lower).
- RecycleBin.DetectFileType: ASCII lower-casing only (see Strings.Lower).
- PasswordManager.NewConfig: ASCII lower-casing of the answer only (see Strings.Lower). bcrypt's truncation of a secret to 72 bytes is not modelled, so two answers that agree on their first 72 bytes are told apart here.
- PasswordManager.AnswerIsCaseInsensitive: ASCII lower-casing only (see Strings.Lower).
- PasswordManager.PasswordManager.VerifySecurityAnswer: ASCII lower-casing only (see Strings.Lower).
- PasswordUI.GamePasswordUI.VerifySecurityAnswer: ASCII lower-casing only (see Strings.Lower).
- FileTransfer.CategorizeFileByExtension: ASCII lower-casing only (see Strings.Lower).
- DocumentVault.DetectFileCategory: ASCII lower-casing only (see Strings.Lower).
- AudioVault.GetAudioFormat: ASCII lower-casing only (see Strings.Lower).
- AudioVault.MatchingFind: ASCII lower-casing only (see Strings.Lower).
- AudioVault.SortFilesOrders: ASCII lower-casing only (see Strings.Lower).
- Python's `\d` and `\s` match any Unicode digit or space. The model uses ASCII digits and the Latin-1 whitespace that `str.isspace` accepts.
- Directory discovery per platform is left out, along with permission requests and the file and folder pickers. This covers the Android, Windows, macOS and Linux private directories, `get_vault_directory` in the media vaults, `request_permissions`, and the Android, desktop and fallback pickers. All of them ask the operating system or the user.
- Loading and saving metadata and configuration files is represented by the in-memory value that was last saved.

Per file:

- recycle_bin_core.py: the thumbnails and other files that travel with a recycled file are not modelled (handle_associated_files, restore_associated_files, delete_associated_files_permanently), nor is the background cleanup scheduler (start_cleanup_scheduler). The first two only touch extra files, and the scheduler is a thread.
- password_manager.py: key setup and the encryption of the config file are not modelled (_setup_encryption, the keystore and desktop key handling, _encrypt_data, _decrypt_data). The config is held decrypted, and the PIN and answer hashes are ideal hashes that keep the secret.
- PasswordManager: get_lockout_time_remaining truncates a float with `int`. Here time is already in whole seconds, so the truncation is not modelled.
- password_ui.py: the countdown refresh (update_lockout_countdown) and the half-second delay before a full PIN is processed (process_pin) are not modelled; both are `Clock` timers.
- main.py: the game-widget calls inside start_game and reset_game (main.py:110, main.py:114-117) are not modelled here; the card game they drive is MonteGame. start_game's status change is modelled by VaultApp.VaultApp.StartGame.
- file_transfer_server.py: the server lifecycle is not modelled. That covers start and stop, local IP detection, the port search, the monitoring thread, page and file-list rendering, `_format_bytes`, chunked downloads (`_stream_file_chunks`) and the scan behind the cached file list.
- Multipart: a byte is one character, and the bytes are not decoded as UTF-8.
- contact_manager.py: the clipboard, e-mail, maps and export actions hand data to the operating system and are not modelled.
- document_vault_core.py: delete_document is not modelled; it only hands the file to the recycle bin, which is modelled on its own. The text preview tries several encodings in turn; the model reads one decoded text.
- audio_vault_core.py: tag and album-art extraction (extract_audio_metadata, extract_album_art) depends on mutagen, so the extracted fields are inputs. get_audio_file is a plain dictionary lookup and is not modelled.
- photo_vault_core.py: get_vault_photos is not modelled, because its image test opens each file with PIL. The second start of the import thread at the end of handle_selection_async is left out; the model runs the import once.
- secure_storage.py: the platform name, the platform base directories, _set_secure_permissions_if_needed (chmod), get_cache_stats and the self-test are not modelled.
- vault_secure_integration.py: the following are not modelled: setup_secure_vault, migrate_existing_files and its worker, initialize_secure_vault, cleanup_vault_integration, get_vault_performance_stats and is_secure_storage_enabled. They wire the pieces together and start threads. The model also omits three details: removing a source folder once it is empty, pathlib's normalisation of the parent, and the outcome of each move, which is a parameter.
- simple_encryption.py: a metadata file that cannot be parsed is modelled as missing metadata. The file written for viewing is returned as its temporary path and its bytes; the write itself is not modelled.
- monte_game.py: the model leaves out four things: the drawing code, the cached background, the state hash that decides redrawing, and the card faces. The eased card movement is a parameter that gives the next position.
- video_vault_operations.py: the model leaves out the duration probes (ffprobe, imageio), the batch info worker, the forced process kills, delete_video with its fallback, and opening a video externally. All of them run external programs or threads.
- RecycleBin.RecycleBinCore.GetRecycleBinStats: sizes are summed in bytes. The division into megabytes and the rounding to one decimal are not modelled, because they are floating point. The branch that returns zeros on an exception is left out, since nothing in the model raises.
- FileTransfer.TransferServer.ReceiveFile: the size in the too-large message comes from a `formatBytes` parameter, because `_format_bytes` renders a float.
- VideoVaultOps.VideoVault.GetVideoInfo: keeps the size in bytes rather than the rounded megabyte text the source stores.
- video_vault_core_optimized.py: register_thread, widget tracking and cleanup, and the background thumbnail worker are not modelled.
- VideoCore.ResourceManager.FullCleanup: counts every registered reader and player as cleaned. It does not model a reader without `close` or a player whose cleanup raises, both of which the source does not count.

## Findings

| source | as written | input that shows it | evidently intended | confidence | as-written member | corrected member |
|---|---|---|---|---|---|---|
| password_ui.py:429-438 | the fifth wrong PIN makes the store lock the vault and answer `failed_0`, so 5 attempts "remain" and the lockout branch never runs | five wrong PINs in a row | the attempt that locks the vault shows the lockout screen | not executed | PasswordUI.LockingAttemptShowsFiveLeft | PasswordUI.FailedFeedbackMatchesLockout |
| file_transfer_server.py:276-286 | the streaming parser writes everything after the first blank line, including the line break and closing delimiter that end the part | a one-file upload over 100 MiB, whose stored file ends with `\r\n--<boundary>--\r\n` | the stored file holds only the part's content, as the in-memory parser gives | not executed | Multipart.StreamKeepsClosingDelimiter | Multipart.StreamedFileDataMatchesInMemory |
| file_transfer_server.py:633-653 | the category segment of a download path is joined unchecked | the path `../<name>` | only the transfer categories can be named | not executed | FileTransfer.ParentCategoryEscapes | FileTransfer.ResolveFilePath |
| file_transfer_server.py:714-720 | the blank-name test runs before truncation to 255 characters | 255 spaces followed by `a` | the stored name is never blank | not executed | FileTransfer.SafeFilenameCanBeBlank | FileTransfer.EnsureSafeFilename |
| document_vault_core.py:558-570 | the line count uses the loop variable `i`, which an empty file never binds | an empty `.txt` document | an empty preview of 0 lines | not executed | DocumentVault.EmptyFilePreviewFails | DocumentVault.GetDocumentPreview |
| audio_vault_core.py:397-404 | the duration sort compares a missing duration (None) with numbers and raises, so the listing is empty | two files, one whose duration could not be read, sorted by duration | an unknown duration sorts as 0 | not executed | AudioVault.DurationSortLosesListing | AudioVault.SortFilesOrders |
