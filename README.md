# pg_probackup: verification helpers, utilities and the agent command line

This project models three parts of pg_probackup and proves properties about them.

1. **The backup-verification engine of the test suite** (`tests/helpers/ptrack_helpers.py`):
   - the per-page MD5 digests of a relation fork split into 1 GiB segment files;
   - decoding of a `_ptrack` change map into one bit per page;
   - the ptrack sanity, recovery and clean checks;
   - the data-directory snapshot `pgdata_content` and its comparison `compare_pgdata`;
   - the file-list difference;
   - the text rewrites of `postgresql.auto.conf` (`set_auto_conf`) and `backup.control` (`change_backup_status`);
   - `version_to_num`.
2. **Utility logic of the C program** (`src/util.c`):
   - base-36 backup ids and their memoised encoding in a `pgBackup`;
   - backup status names and their colours;
   - the version parsers and formatters;
   - the page-bitmap lookup;
   - the pg_control size and byte-order checks;
   - the choice of the redo point in `get_redo`.
3. **The command line that starts the remote agent** (`src/utils/remote.c`):
   - the in-place tokeniser `split_options`;
   - the quoting rule and the agent command string;
   - the order of the ssh argument vector;
   - the agent compatibility checks.

The model follows the form of the code:
- Loops that update variables are `method`s with loop invariants. Each method's `ensures` ties its result to a specification function.
- Buffers the C code writes in place are `array`s: the base-36 buffer, the options copy that `split_options` cuts, and `ssh_argv`.
- The `pgBackup` record, whose encoded id is filled lazily and reset, is a `class`.
- Pure code is made of functions and datatypes, with lemmas relating them.

Inputs that come from the outside world are parameters:
- MD5 is a function parameter `Bytes -> string`.
- The CRC of pg_control is passed in as the computed value.
- The file modes that `os.stat` reports are a function of the path.
- The `os.walk` result is a sequence of (root, dirs, files) steps. Each file carries its bytes and its further segment files.
- The agent protocol version and the locally prepared compatibility string are arguments.

Python dicts whose iteration order matters are sequences of keys plus a map.

| module (file) | models |
|---|---|
| `Common` (common.dfy) | Option/Result, bytes, C strings, `%d` formatting and `sscanf` scanning, C division |
| `PyText` (pytext.dfy) | `str.splitlines`, `strip`, `partition`, `split`, `startswith` |
| `Base36` (base36.dfy) | `base36enc_to`, `base36dec` |
| `Status` (status.dfy) | `status2str`, `status2str_color`, `str2status` |
| `Versions` (versions.dfy) | `parse_server_version`, `parse_program_version`, `parse_server_version_new`, `parse_program_version_new` |
| `PageMap` (pagemap.dfy) | `datapagemap_is_set`, least-significant-bit-first unpacking |
| `BackupId` (backupid.dfy) | `backup_id_of`, `reset_backup_id` on a `pgBackup` |
| `Control` (control.dfy) | `digestControlFile`/`checkControlFile` checks, `get_redo` |
| `Remote` (remote.dfy) | `split_options` |
| `RemoteAgent` (remote.dfy) | `needs_quotes`, the agent command and the ssh argv of `launch_agent` |
| `AgentCompat` (agentcompat.dfy) | `check_remote_agent_compatibility` |
| `Pages` (pages.dfy) | `get_md5_per_page_for_fork` |
| `Ptrack` (ptrack.dfy) | `get_ptrack_bits_per_page_for_fork` |
| `Sanity` (sanity.dfy) | `check_ptrack_sanity`, `check_ptrack_map_sanity`, `check_ptrack_recovery`, `check_ptrack_clean` |
| `Snapshot` (snapshot.dfy) | `pgdata_content` |
| `Compare` (compare.dfy) | `compare_pgdata`, `get_backup_filelist_diff` |
| `AutoConf` (autoconf.dfy) | `set_auto_conf`, `change_backup_status` |
| `VersionNum` (versionnum.dfy) | `version_to_num` |

## Model

| member | source | states |
|---|---|---|
| Common.CString | src/util.c:48 | the C string in a buffer is the prefix up to the first NUL; it contains no NUL, and the NUL follows it when the buffer has one |
| Common.CStringOfTerminated | src/util.c:48 | a string followed by a NUL reads back as that string |
| Common.Itoa | src/util.c:458 | `%d` renders non-negative numbers as their decimal digits and negative ones with a leading minus |
| Common.DecValueOfNatToString | src/util.c:455 | the decimal value of the digits `%d` prints is the number printed |
| Common.ScanIntOfItoa | src/util.c:455 | `sscanf` `%d` reads back any integer printed by `%d`, leaving the rest of the text, when no digit follows |
| Common.ScanIntOfNegative | src/util.c:478 | `%d` reads a leading minus sign and negates |
| Common.CMod | src/util.c:521-523 | C's `%` truncates toward zero: `a == (a/b)*b + a%b`, the remainder takes the sign of `a` |
| Common.ToUint32 | src/util.c:458 | a result stored in a `uint32` wraps modulo 2^32 and equals the value when it fits |
| PyText.SplitJoinedLines | tests/helpers/ptrack_helpers.py:1432 | lines without line breaks, each written with a trailing "\n", split back by `splitlines` into exactly those lines |
| PyText.SplitLines | tests/helpers/ptrack_helpers.py:1432 | no line `splitlines` returns holds a line break |
| PyText.Strip | tests/helpers/ptrack_helpers.py:1446-1449 | what `strip` leaves neither starts nor ends with a character of the class stripped |
| PyText.StripInside | tests/helpers/ptrack_helpers.py:1446-1449 | `strip` removes characters only from the ends: what is left is a contiguous part of the input |
| PyText.StripLeftRemovesOnly | tests/helpers/ptrack_helpers.py:1446-1449 | every character removed on the left belongs to the class stripped |
| PyText.StripRightRemovesOnly | tests/helpers/ptrack_helpers.py:1446-1449 | every character removed on the right belongs to the class stripped |
| PyText.StripUnpadded | tests/helpers/ptrack_helpers.py:1446-1449 | `strip` leaves a string that neither starts nor ends with the class unchanged |
| PyText.Partition | tests/helpers/ptrack_helpers.py:1445 | without the separator the whole line is the name and the value is empty; otherwise name + separator + value is the line and the name holds no separator |
| PyText.Find | tests/helpers/ptrack_helpers.py:1445 | the position found holds the character and nothing before it does; none is found iff the character is absent |
| PyText.Split | tests/helpers/ptrack_helpers.py:1574 | `split` yields at least one piece and no piece holds the separator |
| PyText.SplitJoined | tests/helpers/ptrack_helpers.py:1574 | pieces without the separator, joined by it, split back into exactly those pieces |
| Base36.EncodeTo | src/util.c:34-51 | the caller's 14-cell buffer ends up holding the base-36 digits of the value, most significant first, then NULs |
| Base36.FillDigits | src/util.c:40-45 | the do-while writes exactly the digits of the value backwards, ending just before the terminating NUL, and leaves that NUL alone |
| Base36.StrNCopy | src/util.c:48 | `strncpy` copies the C string and pads the rest of the destination with NULs |
| Base36.DigitsFitBuffer | src/util.c:34-45 | every `unsigned long` has at most 13 base-36 digits, so the digits and NUL fit in the 14-cell buffer |
| Base36.NoLeadingZero | src/util.c:42-45 | the first digit is '0' iff the value is 0, so 0 encodes as "0" and no other value has a leading zero |
| Base36.DigitChar36 | src/util.c:37 | digit d is the character of "0-9A-Z" whose base-36 value is d |
| Base36.Decode | src/util.c:53-57 | `strtoul` in base 36 never yields more than ULONG_MAX |
| Base36.ValueOfDigits | src/util.c:34-45 | the base-36 value of the digits written is the value encoded |
| Base36.DecodeEncode | src/util.c:34-57 | `base36dec` of the digits of any `unsigned long` is that value |
| Base36.DecodeBuffer | src/util.c:34-57 | decoding the buffer `base36enc_to` fills gives the value back |
| Status.StatusToStr | src/util.c:528-535 | an in-range status gets its own name; any other value gets "UNKNOWN" |
| Status.StatusToColouredStr | src/util.c:537-558 | the name is `status2str`'s; red exactly for CORRUPT, ERROR and ORPHAN; yellow exactly for INVALID (named UNKNOWN), MERGING, MERGED, DELETING and DELETED; green exactly for OK, RUNNING and DONE |
| Status.StatusOf | src/util.c:560-571 | the result names a status matching the text case-insensitively with no earlier match; when nothing matches it is INVALID |
| Status.StrToStatus | src/util.c:560-571 | the search loop returns the first status whose name matches case-insensitively, else INVALID |
| Status.NamesDistinct | src/util.c:19-32 | no two status names are equal ignoring case |
| Status.StatusOfName | src/util.c:528-571 | `str2status(status2str(s))` is `s` for every in-range status and INVALID otherwise |
| Versions.ScanDottedOfDotted | src/util.c:455 | `sscanf` with k dotted `%d` fields reads back the k numbers printed with dots between them |
| Versions.VersionNumber | src/util.c:458 | the combined version number is stored modulo 2^32 |
| Versions.ParseServerVersion | src/util.c:446-462 | the result always fits a `uint32`; what it is on every input is stated by `ParseServerVersionOfPrefix` and `ParseServerVersionWithoutDot` |
| Versions.ParseServerVersionOfPrefix | src/util.c:454-456 | any string beginning "major.minor" (not followed by another digit) parses to major·10000 + minor·100 modulo 2^32, and to exactly that number when it fits a `uint32` |
| Versions.ParseServerVersionWithoutDot | src/util.c:454-459 | a string without a dot cannot give two fields, so the result is the fallback 0 |
| Versions.ParseServerVersionOfDotted | src/util.c:446-462 | "major.minor" parses to major·10000 + minor·100 |
| Versions.ParseProgramVersion | src/util.c:467-485 | NULL and "" give 0 and every result fits a `uint32`; what it is on other inputs is stated by `ParseProgramVersionOfPrefix`, `ParseProgramVersionOfTwoFields` and `ParseProgramVersionWithoutDot` |
| Versions.ParseProgramVersionOfPrefix | src/util.c:478-480 | any string beginning "major.minor.micro" (not followed by another digit) parses to major·10000 + minor·100 + micro modulo 2^32, and to exactly that number when it fits a `uint32` |
| Versions.ParseProgramVersionOfTwoFields | src/util.c:478-482 | "major.minor" followed by neither a digit nor a dot has only two fields and gives the fallback 0 |
| Versions.ParseProgramVersionWithoutDot | src/util.c:478-482 | a non-empty string without a dot cannot give three fields, so the result is the fallback 0 |
| Versions.ServerVersionNew | src/util.c:492-504 | there is no string exactly when the number is below 100000 |
| Versions.ServerVersionNewFields | src/util.c:492-504 | the string scans back as the two fields n/10000 and n%1000 |
| Versions.ParseServerVersionNew | src/util.c:446-504 | parsing the formatted server version gives (n/10000)·10000 + (n%1000)·100 |
| Versions.ProgramFields | src/util.c:519-523 | the three printed fields recombine to the number, the last two below 100 |
| Versions.ProgramVersionNewAsWritten | src/util.c:512-526 | as written the guard tests the still-NULL local pointer, so no string is ever returned |
| Versions.ProgramVersionNewAsWrittenLosesVersion | src/util.c:512-526 | as written, every positive version parses back as 0 |
| Versions.ProgramVersionNewTruncated | src/util.c:519 | with the guard mended but `sizeof(100)` kept, the string exists iff the number is positive and is at most 3 characters long |
| Versions.ProgramVersionNewTruncatedLosesVersion | src/util.c:519-523 | the truncated string never parses back to the version |
| Versions.ProgramVersionNew | src/util.c:512-526 | corrected: a string exactly for positive numbers |
| Versions.ParseProgramVersionNew | src/util.c:467-526 | corrected formatting round-trips: `parse_program_version` of it is the number, and 0 for 0 |
| PageMap.ByteBits | src/util.c:582 | the eight bits of a byte, least significant first |
| PageMap.UnpackIndex | src/util.c:578-582 | bit `blkno` of the unpacked map is bit `blkno % 8` of byte `blkno / 8` |
| PageMap.UnpackAppend | tests/helpers/ptrack_helpers.py:667-680 | unpacking a concatenation is the concatenation of the unpackings |
| PageMap.IsSet | src/util.c:573-583 | a set bit lies within the first `bitmapsize` bytes |
| PageMap.IsSetUnpack | src/util.c:573-583 | `datapagemap_is_set` holds iff `blkno` is inside the unpacked first `bitmapsize` bytes and its bit is 1 |
| PageMap.IsSetIgnoresTail | src/util.c:573-583 | bytes past `bitmapsize` never matter |
| BackupId.PgBackup.BackupIdOf | src/util.c:601-612 | an empty encoded buffer is filled with the base-36 id; a filled one is left alone; the text returned is the buffer's C string, and after filling it decodes to the id modulo 2^64 |
| BackupId.PgBackup.ResetBackupId | src/util.c:614-619 | the id becomes INVALID_BACKUP_ID, the whole buffer is zeroed, the start time is untouched |
| BackupId.BackupIdOfTwice | src/util.c:601-612 | two calls return the same text, which decodes to the id |
| BackupId.ResetThenEncode | src/util.c:601-619 | after a reset and a new id, `backup_id_of` encodes the new id |
| Control.DigestControlFile | src/util.c:59-101 | accepted iff the size is PG_CONTROL_FILE_SIZE, the CRC matches and the byte-order test passes; size is checked first, then the CRC |
| Control.SmallVersionsPass | src/util.c:75-80 | a version below 65536 never triggers the byte-order error |
| Control.SwappedVersionsFail | src/util.c:75-80 | a nonzero version below 65536 read with its bytes swapped always triggers it |
| Control.RedoLsn | src/util.c:355-372 | the redo LSN is the minimum of the checkpoint redo and the positive `minRecoveryPoint`/`backupStartPoint`: no greater than any of them, and equal to the checkpoint redo or to one of the positive points |
| Control.GetRedo | src/util.c:342-375 | a failing control file fails `get_redo` with the same error; otherwise the result holds the chosen LSN, its timeline and the checksum version |
| Control.RedoTliFollowsLsn | src/util.c:358-372 | when the minimum recovery point is below the checkpoint redo and differs from the backup start point, the timeline is `minRecoveryPointTLI` exactly when that point was chosen, else the checkpoint timeline |
| Control.RedoOfPlainCheckpoint | src/util.c:355-372 | without recovery or backup start points the checkpoint's redo and timeline are used |
| Remote.SplitOptions | src/utils/remote.c:17-54 | it errors iff argc plus the tokens reach `max_options`; otherwise it returns argc plus the token count, every space of the options is now NUL, `argv[argc+i]` points at token i, and the rest of argv is untouched |
| Remote.CutAtSpaces | src/utils/remote.c:21-47 | the scanning loop appends a pointer per space, cuts every space, and stops with an error once argc reaches the limit |
| Remote.QuoteStep | src/utils/remote.c:23-33 | an opening quote is remembered, the matching quote closes it unless doubled, a doubled quote is skipped as a pair, and only quote characters are passed over |
| Remote.Tokens | src/utils/remote.c:34-47 | one more token than spaces, token i running between consecutive spaces |
| Remote.TokensHaveNoSpace | src/utils/remote.c:41-47 | no token contains a space, whatever the quotes |
| Remote.JoinTokens | src/utils/remote.c:41-47 | the tokens joined with single spaces give the options back, empty tokens included |
| Remote.TokenReadBack | src/utils/remote.c:34-47 | after the cut, the C string at each appended pointer is exactly its token |
| RemoteAgent.OptionArgsReadBack | src/utils/remote.c:105-107 | each entry split_options appends to ssh_argv reads back as the corresponding non-empty-tail token of `ssh_options` |
| Remote.AppendedCount | src/utils/remote.c:34-47 | split_options appends one pointer per space and at most one more, for the trailing token |
| RemoteAgent.NeedsQuotes | src/utils/remote.c:76-79 | a path needs quotes iff it contains a space |
| RemoteAgent.StrRChr | src/utils/remote.c:128 | `strrchr` finds the last occurrence, or none iff the character is absent |
| RemoteAgent.BaseName | src/utils/remote.c:127-131 | the program name after its last '/', the whole name when there is none |
| RemoteAgent.SpaceInBaseName | src/utils/remote.c:132 | a space in the base name is a space in the full program name, so quoting on the full name covers it |
| RemoteAgent.Snprintf | src/utils/remote.c:133-142 | `snprintf` keeps the text when it fits the buffer and otherwise its first size−1 characters |
| RemoteAgent.AgentCommand | src/utils/remote.c:125-143 | the command always fits the 4096-byte buffer |
| RemoteAgent.AgentCommandWords | src/utils/remote.c:125-143 | when it fits, the command is the agent's location, quoted when a space needs it, followed by " agent" |
| RemoteAgent.AgentCommandTruncated | src/utils/remote.c:133-142 | a command text too long for the buffer is cut to its first 4095 characters |
| RemoteAgent.LeadingArgs | src/utils/remote.c:91-104 | proto plus up to three flag pairs: between one and seven entries |
| RemoteAgent.SshArgv | src/utils/remote.c:91-123 | the vector holds the leading arguments, the split options and eleven more entries, ending with the command buffer and NULL |
| RemoteAgent.PushPair | src/utils/remote.c:93-104 | a flag and its value are appended when the value is set, nothing otherwise |
| RemoteAgent.PushOptions | src/utils/remote.c:105-107 | the pointers to the split options are appended in order, or the error is reported |
| RemoteAgent.PushFixed | src/utils/remote.c:109-119 | the four fixed `-o` pairs are appended in order |
| RemoteAgent.PushTail | src/utils/remote.c:109-123 | the fixed pairs, host, command buffer and NULL are appended |
| RemoteAgent.BuildSshArgv | src/utils/remote.c:81-123 | with room kept for the eleven trailing entries, assembly fails iff split_options rejects the options, and otherwise ssh_argv holds exactly the vector above, NULL-terminated |
| RemoteAgent.SshArgvFits | src/utils/remote.c:84-123 | with the corrected split limit every accepted configuration fits the 256 entries |
| RemoteAgent.SshArgvOverflowAsWritten | src/utils/remote.c:84-123 | as written, an options string split_options accepts makes ssh_argv need more than its 256 entries |
| AgentCompat.AgentVersionStr | src/utils/remote.c:279-285 | the message renders v/10000, (v/100)%100 and v%100 with C division, and those fields scan back |
| AgentCompat.AgentVersionStrReadsBack | src/utils/remote.c:279-285 | for any `uint32` protocol version, `parse_program_version` of the rendering is the version |
| AgentCompat.StrNLen | src/utils/remote.c:292 | `strnlen` stops at the first NUL or at the maximum size |
| AgentCompat.StrNLenTerminated | src/utils/remote.c:292-295 | the termination test fails exactly when no NUL lies within the maximum size, and otherwise measures the C string |
| AgentCompat.CheckCompatibilityCases | src/utils/remote.c:273-308 | the contract of `CheckCompatibility`, the model of check_remote_agent_compatibility: it succeeds iff the versions agree, the string is NUL-terminated within the buffer and it equals the prepared one, returning that string; a version mismatch is reported first and an unterminated string before a mismatch |
| Pages.SegmentCount | tests/helpers/ptrack_helpers.py:613-616 | the number of segments is the ceiling of pages/131072, 0 only for 0 pages |
| Pages.PagesPerSegment | tests/helpers/ptrack_helpers.py:618-624 | every segment holds at least one page, every segment but the last holds 131072, and together they hold all the pages |
| Pages.MaxKey | tests/helpers/ptrack_helpers.py:636 | `max` returns a key no smaller than any other |
| Pages.ReadAt | tests/helpers/ptrack_helpers.py:640-641 | a read returns at most 8192 bytes and nothing past the end of the file |
| Pages.Md5PerPageForFork | tests/helpers/ptrack_helpers.py:610-646 | the keys are exactly 0 … int(size_in_pages)−1; page p is the digest of the 8192 bytes at offset (p mod 131072)·8192 of segment p div 131072; a missing segment file is the first one missing |
| Pages.ReadSegment | tests/helpers/ptrack_helpers.py:639-644 | the pages of one segment file are digested in order from offset 0 |
| Pages.SegmentsCover | tests/helpers/ptrack_helpers.py:626-637 | when all segment files exist, every page falls into one of them |
| Pages.SegmentFiles | tests/helpers/ptrack_helpers.py:633-635 | cutting a fork into 1 GiB files: segment s exists iff the fork extends past s GiB |
| Pages.SegmentedReadIsFlatRead | tests/helpers/ptrack_helpers.py:639-643 | reading page p from its segment file reads the same bytes as offset p·8192 of the whole fork |
| Pages.PageMd5OfFlatFork | tests/helpers/ptrack_helpers.py:639-643 | each page digest is the digest of page p of the whole fork |
| Ptrack.Bin | tests/helpers/ptrack_helpers.py:677 | `bin(n)[2:]` is a non-empty string of binary digits |
| Ptrack.BinDigit | tests/helpers/ptrack_helpers.py:677 | the k-th digit from the right of `bin(n)[2:]` is bit k of n |
| Ptrack.BinOfByte | tests/helpers/ptrack_helpers.py:677 | a byte has at most eight binary digits, so `rjust(8, '0')` only pads |
| Ptrack.InvertedBitsIndex | tests/helpers/ptrack_helpers.py:677 | character k of the padded and reversed string is bit k of the byte |
| Ptrack.InvertedBitsAreByteBits | tests/helpers/ptrack_helpers.py:677-680 | the bits appended per byte are its bits least significant first |
| Ptrack.BodiesIndex | tests/helpers/ptrack_helpers.py:667-670 | the bodies read skip a 24-byte header in each 8192-byte page |
| Ptrack.MapBitsIndex | tests/helpers/ptrack_helpers.py:667-680 | bit ((p·8168+j)·8+k) of the result is bit k of byte 8192·p+24+j of the map |
| Ptrack.PtrackBitsPerPageForFork | tests/helpers/ptrack_helpers.py:648-683 | an empty data file gives []; a missing or unaligned `_ptrack` file is an error; otherwise the bits of every page body in order |
| Ptrack.AppendPageBits | tests/helpers/ptrack_helpers.py:671-680 | the bits of one page body are appended byte by byte |
| Ptrack.AppendInverted | tests/helpers/ptrack_helpers.py:677-680 | one byte appends its eight bits, least significant first |
| Ptrack.ZeroMapIsClean | tests/helpers/ptrack_helpers.py:648-683 | an all-zero change map decodes to all-zero bits |
| Sanity.CheckPage | tests/helpers/ptrack_helpers.py:714-787 | one page keeps success iff it passes; the body reaches its end, and the misplaced return, iff the page is in both maps and is not the exempt SP-GiST page 0 |
| Sanity.FirstReturn | tests/helpers/ptrack_helpers.py:747-788 | the first page where the loop as written returns, with no earlier one |
| Sanity.CheckedStep | tests/helpers/ptrack_helpers.py:713-787 | the loop invariant: success says whether every page so far passed |
| Sanity.PtrackSanityAsWritten | tests/helpers/ptrack_helpers.py:707-788 | the code as written: it stops after the first page where it returns, reporting whether the pages so far passed; without such a page it yields None; a short bit list raises IndexError |
| Sanity.PtrackSanity | tests/helpers/ptrack_helpers.py:707-788 | corrected: every page below the larger size is checked and the result says whether all passed |
| Sanity.RemovedPageBitIrrelevant | tests/helpers/ptrack_helpers.py:729-742 | the bit of a page present only before never changes the verdict |
| Sanity.MoreMarksStillPass | tests/helpers/ptrack_helpers.py:713-787 | setting more bits never makes a passing check fail |
| Sanity.AllMarkedPasses | tests/helpers/ptrack_helpers.py:713-787 | a map with every bit set passes |
| Sanity.UnmarkedNewPageFails | tests/helpers/ptrack_helpers.py:714-728 | a new page with a clear bit makes the check fail |
| Sanity.AsWrittenMissesLaterPages | tests/helpers/ptrack_helpers.py:747-788 | as written, a changed second page with a clear bit goes unnoticed; the corrected check fails |
| Sanity.AsWrittenFailsGrownRelation | tests/helpers/ptrack_helpers.py:701-788 | as written, a relation made only of new, marked pages yields None, which the map check counts as failure; the corrected check passes |
| Sanity.MapSanityAll | tests/helpers/ptrack_helpers.py:685-705 | the map check passes iff every relation passes |
| Sanity.PtrackMapSanity | tests/helpers/ptrack_helpers.py:685-705 | the loop over relations computes that verdict, stopping at the first IndexError |
| Sanity.CheckEveryPage | tests/helpers/ptrack_helpers.py:828-856 | passes iff the first `size` bits all equal the expected value; otherwise it names the first page that differs or the first missing bit |
| Sanity.PtrackRecovery | tests/helpers/ptrack_helpers.py:828-841 | passes iff the first `size` bits are all 1 |
| Sanity.PtrackClean | tests/helpers/ptrack_helpers.py:843-856 | passes iff the first `size` bits are all 0 |
| Snapshot.Retained | tests/helpers/ptrack_helpers.py:1667 | the directories kept are exactly those not in the ignore list |
| Snapshot.PgdataContent | tests/helpers/ptrack_helpers.py:1640-1711 | the walk loop computes the snapshot: files and leaf directories, each with its mode |
| Snapshot.RecordFiles | tests/helpers/ptrack_helpers.py:1668-1692 | the files of one walk step are recorded in order, skipping ignored names; the first failing read ends it |
| Snapshot.RecordFile | tests/helpers/ptrack_helpers.py:1675-1692 | one file's record: data-file flag, whole-file digest and, for data files, the page digests |
| Snapshot.RecordDirs | tests/helpers/ptrack_helpers.py:1694-1700 | each subdirectory recorded replaces its parent |
| Snapshot.FilesAfterErrSticks | tests/helpers/ptrack_helpers.py:1666-1692 | once a read fails, later walk steps do not change the outcome |
| Snapshot.StepFilesErrSticks | tests/helpers/ptrack_helpers.py:1668-1692 | once a read fails within a step, later files of that step do not change the outcome |
| Snapshot.StepDirsMembers | tests/helpers/ptrack_helpers.py:1694-1700 | after a step, the directories are the earlier ones less the root when it has subdirectories, plus the root's retained subdirectories |
| Snapshot.DirsAreLeaves | tests/helpers/ptrack_helpers.py:1694-1700 | for a top-down walk, a directory is in the snapshot iff it was retained and no retained subdirectory of it was seen |
| Snapshot.StepFilesMembers | tests/helpers/ptrack_helpers.py:1668-1678 | after a step, the files are the earlier ones plus that step's files not skipped |
| Snapshot.FilesAreWalkFiles | tests/helpers/ptrack_helpers.py:1666-1678 | the snapshot's files are exactly the walked files not skipped |
| Snapshot.FileRecordContents | tests/helpers/ptrack_helpers.py:1677-1692 | a record is a data file iff its name is all digits, holds the digest of the bytes, and a data file holds `get_md5_per_page_for_fork` of its segments with size/8192 pages |
| Snapshot.WalkRecordIsFileRecord | tests/helpers/ptrack_helpers.py:1668-1692 | the record kept for a walked file is that file's own record, when roots and names do not repeat |
| Snapshot.FileRecordOfWalk | tests/helpers/ptrack_helpers.py:1668-1692 | every walked file not skipped appears with its data-file flag, its digest and its page digests |
| Snapshot.DirsAvoidIgnored | tests/helpers/ptrack_helpers.py:1657-1667 | when the walk honours pruning, no recorded directory lies under an ignored name |
| Compare.ReportAll | tests/helpers/ptrack_helpers.py:1744-1754 | a loop over a set reports one finding per element and sets fail when any finding is failing |
| Compare.ComparePages | tests/helpers/ptrack_helpers.py:1818-1850 | the page findings of a data file: pages gone, extra pages, and checksum mismatches on shared non-excluded pages |
| Compare.ChangedPages | tests/helpers/ptrack_helpers.py:1833-1850 | shared pages outside the exclusion with different digests are reported, and only they set fail |
| Compare.FailsOfPages | tests/helpers/ptrack_helpers.py:1821-1850 | the page findings fail iff some shared non-excluded page differs: one-sided pages never fail |
| Compare.CompareFile | tests/helpers/ptrack_helpers.py:1790-1850 | one shared file: a mode mismatch, a digest mismatch unless excluded, and the page findings when the digests differ on a data file; a data file missing page digests raises |
| Compare.CompareDirModes | tests/helpers/ptrack_helpers.py:1756-1767 | shared directories with different modes are reported; one missing from the original raises KeyError |
| Compare.CompareDirs | tests/helpers/ptrack_helpers.py:1740-1767 | directory findings: keys on one side only, then mode mismatches, raising iff a looked-up directory is missing |
| Compare.CompareSharedFiles | tests/helpers/ptrack_helpers.py:1789-1850 | the loop over shared files accumulates their findings and raises iff one cannot be compared |
| Compare.CompareFiles | tests/helpers/ptrack_helpers.py:1769-1850 | file findings: keys on one side only, then the shared files |
| Compare.CompareSnapshots | tests/helpers/ptrack_helpers.py:1737-1852 | raises iff a lookup fails, directories first; otherwise the findings are all of them and the assertion fails iff a failing finding exists |
| Compare.ComparePgdataAsWritten | tests/helpers/ptrack_helpers.py:1731-1852 | the code as written, with the original key sets taken from the restored snapshot |
| Compare.ComparePgdata | tests/helpers/ptrack_helpers.py:1731-1852 | corrected: the original key sets come from the original snapshot |
| Compare.CompareSelf | tests/helpers/ptrack_helpers.py:1731-1852 | a snapshot compared with itself never raises and has no findings |
| Compare.AsWrittenReportsNoKeyDifference | tests/helpers/ptrack_helpers.py:1741-1787 | as written, no "not present" or "disappeared" finding can occur |
| Compare.AsWrittenRaisesOnNewFile | tests/helpers/ptrack_helpers.py:1769-1791 | as written, a file present only in the restored directory raises KeyError |
| Compare.AsWrittenMissesLostFile | tests/helpers/ptrack_helpers.py:1741-1787 | as written, a file lost in the restore goes unnoticed; corrected, it is reported as disappeared |
| Compare.ComparisonReportsKeyDifferences | tests/helpers/ptrack_helpers.py:1744-1787 | corrected, every directory or file present on one side only is reported |
| Compare.SnapshotWellFormed | tests/helpers/ptrack_helpers.py:1677-1692 | every snapshot `pgdata_content` produces has page digests exactly for its data files |
| Compare.ComparisonOfSnapshotsNeverRaises | tests/helpers/ptrack_helpers.py:1789-1819 | the corrected comparison of two such snapshots never raises |
| Compare.Mirror | tests/helpers/ptrack_helpers.py:1744-1850 | swapping the two sides of a finding keeps whether it fails |
| Compare.IssuesMirror | tests/helpers/ptrack_helpers.py:1740-1850 | each finding of (a, b) appears mirrored among those of (b, a) |
| Compare.ComparisonSymmetric | tests/helpers/ptrack_helpers.py:1740-1850 | comparing a with b fails iff comparing b with a fails |
| Compare.FileIssuesExcluded | tests/helpers/ptrack_helpers.py:1802-1835 | the exclusion map only removes whole-file digest findings of excluded files and page findings of excluded pages |
| Compare.ExclusionOnlySuppresses | tests/helpers/ptrack_helpers.py:1802-1835 | the findings with an exclusion map are those without it, less the suppressed ones |
| Compare.BackupFilelistDiff | tests/helpers/ptrack_helpers.py:813-820 | the loop keeps exactly the entries of the first list whose path the second lacks |
| Compare.DifferenceSplits | tests/helpers/ptrack_helpers.py:813-820 | the difference avoids the second list, and with the shared entries rebuilds the first |
| AutoConf.ClassifyLine | tests/helpers/ptrack_helpers.py:1432-1449 | empty and comment lines are ignored, `include` lines are directives, every other line is a setting with a stripped name and value |
| AutoConf.SettingName | tests/helpers/ptrack_helpers.py:1445-1446 | the name is stripped of white space |
| AutoConf.SettingValue | tests/helpers/ptrack_helpers.py:1447-1449 | the value ends stripped of single quotes, after white space and double quotes |
| AutoConf.Put | tests/helpers/ptrack_helpers.py:1455-1458 | a dict assignment updates the value and appends the key only when it is new |
| AutoConf.ParseAutoConf | tests/helpers/ptrack_helpers.py:1430-1455 | the parsing loop builds `current_options` and `current_directives` as specified |
| AutoConf.WriteAutoConf | tests/helpers/ptrack_helpers.py:1460-1466 | the output is one `name = 'value'` line per option in dict order, then the directives, each ended by "\n" |
| AutoConf.AppendLines | tests/helpers/ptrack_helpers.py:1465-1466 | appending lines one at a time writes each followed by "\n" |
| AutoConf.SetAutoConf | tests/helpers/ptrack_helpers.py:1422-1471 | the whole rewrite computes its specification |
| AutoConf.DirectivesAreIncludeLines | tests/helpers/ptrack_helpers.py:1441-1443 | the directives kept are exactly the `include` lines, in order |
| AutoConf.ParsedOptions | tests/helpers/ptrack_helpers.py:1445-1455 | a name is kept iff it is not removed and some line sets it, and it keeps the value of the last such line |
| AutoConf.OverrideInPlace | tests/helpers/ptrack_helpers.py:1457-1458 | passed options override values in place and append new names after the old ones |
| AutoConf.OverrideKeepsKeys | tests/helpers/ptrack_helpers.py:1457-1458 | overriding existing names changes neither the names nor their order |
| AutoConf.OverrideIdempotent | tests/helpers/ptrack_helpers.py:1457-1458 | overriding twice with the same options is overriding once |
| AutoConf.RemovedStayRemoved | tests/helpers/ptrack_helpers.py:1451-1458 | a removed name not passed again is absent from the output options |
| AutoConf.ClassifyOptionLine | tests/helpers/ptrack_helpers.py:1445-1463 | an emitted `name = 'value'` line parses back to the same name and value |
| AutoConf.ReadBack | tests/helpers/ptrack_helpers.py:1430-1466 | parsing the written file gives back the options, in order, and the directives |
| AutoConf.SetAutoConfIdempotent | tests/helpers/ptrack_helpers.py:1422-1471 | rewriting with the same options twice gives the same text as once |
| AutoConf.StatusLines | tests/helpers/ptrack_helpers.py:1528-1532 | the line count is unchanged |
| AutoConf.ChangeBackupStatus | tests/helpers/ptrack_helpers.py:1519-1537 | each line is written back with "\n", lines starting with `status` replaced by `status = <status>` |
| AutoConf.ChangedStatusReadsBack | tests/helpers/ptrack_helpers.py:1528-1532 | the new file splits back into the rewritten lines |
| AutoConf.ChangeBackupStatusIdempotent | tests/helpers/ptrack_helpers.py:1519-1537 | changing the status twice to the same value gives the same file as once |
| VersionNum.Digits | tests/helpers/ptrack_helpers.py:1579 | `re.sub(r"[^\d]", "", part)` keeps only digits and leaves all-digit parts alone |
| VersionNum.DigitsEmpty | tests/helpers/ptrack_helpers.py:1579 | nothing is left iff the part has no digit, the case where `int()` raises |
| VersionNum.PadParts | tests/helpers/ptrack_helpers.py:1575-1576 | fewer than three parts are padded with "0" up to three; more are kept |
| VersionNum.PadToThree | tests/helpers/ptrack_helpers.py:1575-1576 | the padding loop computes that |
| VersionNum.PartsToNum | tests/helpers/ptrack_helpers.py:1577-1580 | the fold `num*100 + int(digits)` over the parts, or ValueError at a part without digits |
| VersionNum.ErrorStays | tests/helpers/ptrack_helpers.py:1578-1579 | once a part raises, the whole conversion raises |
| VersionNum.VersionToNum | tests/helpers/ptrack_helpers.py:1571-1580 | None and "" give 0; otherwise the fold over the padded parts of `split('.')` |
| VersionNum.PartsValueOfRendered | tests/helpers/ptrack_helpers.py:1577-1580 | the fold over printed numbers is the base-100 value of those numbers |
| VersionNum.SplitFormat | tests/helpers/ptrack_helpers.py:1574 | a dotted version splits back into its printed parts |
| VersionNum.PadRendered | tests/helpers/ptrack_helpers.py:1575-1576 | padding printed parts is printing the zero-padded numbers |
| VersionNum.VersionToNumOfFormat | tests/helpers/ptrack_helpers.py:1571-1580 | a dotted version of one or more numbers converts to the base-100 value of its zero-padded parts |
| VersionNum.NumMonotone | tests/helpers/ptrack_helpers.py:1577-1580 | with parts below 100, lexicographic order implies numeric order |
| VersionNum.Trichotomy | tests/helpers/ptrack_helpers.py:1577-1580 | two part lists of one length are equal or one precedes the other |
| VersionNum.NumOrder | tests/helpers/ptrack_helpers.py:1577-1580 | with parts below 100, the numbers compare exactly as the part lists do lexicographically |
| VersionNum.VersionOrder | tests/helpers/ptrack_helpers.py:1571-1580 | versions of one to three parts below 100 convert to numbers ordered exactly as the versions |
| VersionNum.NumOfTwo | tests/helpers/ptrack_helpers.py:1575-1580 | "a.b" converts to a·10000 + b·100 |
| VersionNum.WidePartsCollide | tests/helpers/ptrack_helpers.py:1578-1579 | with a part of 100 or more, two different versions in order convert to the same number |

## Left out

- MD5 (RFC 1321) and CRC-32C are not computed. MD5 is a function parameter, and the CRC of pg_control arrives as its computed value.
- File and OS access is not modelled: `os.walk`, `os.stat`, `os.open`/`read`/`lseek`, `slurpFile`, the `fio_*` layer, `open`/`write`/`flush` of the config files, fork, pipe, dup2, execvp, `wait_ssh`. The walk, file bytes, segment files and modes are inputs, and the rewrites of the config files are functions from old text to new text.
- Logging and the text of error and assertion messages are not modelled. Findings and errors are datatypes; `elog(ERROR)` and `assertTrue`/`assertFalse` become `Err` results or verdicts.
- The order in which `compare_pgdata` iterates sorted keys is not modelled: findings are a set. When several lookups would raise KeyError, the model names some missing key, not necessarily the first in sorted order.
- The `verbose` printing in `check_ptrack_sanity` is not modelled.
- The chunked reading of `pgdata_content` is not modelled: the whole-file digest is taken over the file's bytes at once, which is what the 64 KiB chunks add up to.
- `get_md5_per_page_for_fork` receives `size_in_pages` as a real (`getsize/8192` in Python 3), and `int()` is `Floor`. Floating-point rounding of that division is not modelled.
- `prepare_compatibility_str` and `extract_pg_edition_str` are not part of this model. The prepared string is a parameter of the compatibility check.
- Catalog queries (`get_fork_size`, `get_fork_path`, `get_known_bugs_comparision_exclusion_dict`) are not part of this model: sizes, paths and the exclusion map are inputs.
- `datapagemap_print_debug` is not modelled: its iterator is not shown and its only effect is logging.
- Common.ScanInt, Versions.ParseServerVersion, Versions.ParseProgramVersion: do not model C's undefined behaviour outside `int` range. In C, a `sscanf` `%d` field that overflows `int` is undefined, and so is the signed `major*10000 + minor*100 (+ micro)` at src/util.c:456 and src/util.c:480. The model scans the exact integer and reduces the combination modulo 2^32.
- Header constants that are not part of this model are assumed: `base36bufsize` = 14, `PG_CONTROL_FILE_SIZE` = 8192, `INVALID_BACKUP_ID` = 0, and the `BackupStatus` enum order is taken from the order of `statusName[]` (src/util.c:19-32).
- Python's `str.isdigit`, `\d` and `int()` accept non-ASCII digits. The model accepts ASCII digits only.
- `str.isspace` is modelled by the fixed list in `PyText.IsSpace`.
- `set_auto_conf` formats option values with `str()`. The model takes the options as strings, and as a sequence of (name, value) pairs rather than a dict: a name passed twice keeps its last value.
- AutoConf.SetAutoConfIdempotent: proved only under three conditions. (1) Every passed name satisfies `ConfName`: no '=', no line break, no white-space padding, and not starting with "#" or "include". (2) Every passed value satisfies `ConfValue`: no line break and no surrounding single quotes. Space padding and double quotes are allowed. (3) The existing file satisfies `PlainNames`: no setting line's stripped name starts with "#" or "include". Outside (3) the first rewrite can change how a line reads: `  include_dir = 'x'` is a setting on the first rewrite and a directive on the second.
- AutoConf.ChangedStatusReadsBack: proved for status texts without line breaks, as passed by the tests.
- `split_options`, `launch_agent` and the helper methods of single source functions (`CutAtSpaces`, `CutStep`, `CutSpaceStep`, `QuoteStep`, `PushPair`, `PushOptions`, `PushFixed`, `PushTail`, `FillDigits`, `StrNCopy`, `AppendPageBits`, `AppendInverted`, `PadToThree`, `PartsToNum`, `AppendLines`, `ReadSegment`, `CheckPage`, `RecordFile`, `RecordDirs`, `CompareNext`, `CompareOne`) split one source loop into methods. The behaviour is that of the single function.
- Pointers into the options copy are offsets into that buffer. `ssh_argv` entries are a datatype of literals, offsets, the command buffer and NULL.
- RemoteAgent.BuildSshArgv: the split limit is the corrected one, which leaves room for the eleven trailing entries (see Findings). The as-written limit is shown by `RemoteAgent.SshArgvOverflowAsWritten`.
- `Sanity.PtrackMapSanity` uses the corrected `check_ptrack_sanity`. With the as-written check, a None result counts as failure at line 701; `Sanity.AsWrittenFailsGrownRelation` shows that case.
- Status.StatusToColouredStr: accepts enum values only; the C function indexes `statusName[]` unchecked, which is undefined for other values.
- `Status.StatusToColouredStr` returns the colour as an enumeration with the name. The terminal escape sequences and the 20-byte `snprintf` truncation are not modelled.
- `pg_strcasecmp` is modelled as ASCII case folding.
- `Control.DigestControlFile` does not model `memcpy` of the raw bytes into the record: the record is an input with the bytes' size.

## Findings

| source | as written | input that shows it | evidently intended | confidence | as-written member | corrected member |
|---|---|---|---|---|---|---|
| src/util.c:517 | `if (program_version > 0)` tests the local pointer, which is still NULL, so `parse_program_version_new` never returns a string | any number, e.g. 20511 | test `program_version_num > 0` | high, not executed | Versions.ProgramVersionNewAsWrittenLosesVersion | Versions.ParseProgramVersionNew |
| src/util.c:520 | `snprintf(program_version, sizeof(100), …)` passes `sizeof(int)`, 4 bytes, so at most three characters are written | 20511 formats as "2.5" | pass the buffer size, 100 | high, not executed | Versions.ProgramVersionNewTruncatedLosesVersion | Versions.ParseProgramVersionNew |
| src/utils/remote.c:106 | `split_options` is given `MAX_CMDLINE_OPTIONS`, the size of `ssh_argv`, although eleven more entries follow the options | proto and host only, `ssh_options` of 244 spaces then "x": 246 entries pass the check, 257 are then written into 256 slots | a limit that leaves room for the trailing entries | medium, not executed | RemoteAgent.SshArgvOverflowAsWritten | RemoteAgent.BuildSshArgv |
| tests/helpers/ptrack_helpers.py:788 | `return success` sits inside the page loop, so the check stops at the first page present in both maps | two pages, page 1 changed with its bit clear: as written the result is True | return after the loop | high, not executed | Sanity.AsWrittenMissesLaterPages | Sanity.PtrackSanity |
| tests/helpers/ptrack_helpers.py:1742-1770 | `original_dirs` and `original_files` are built from `restored_pgdata`, so files lost in the restore are never reported | original holds `PG_VERSION`, restored is empty: no failure | build them from `original_pgdata` | high, not executed | Compare.AsWrittenMissesLostFile | Compare.ComparisonReportsKeyDifferences |
