/**
 * The backup record's identifier and its memoised base-36 text
 * (src/util.c, backup_id_of and reset_backup_id).
 */
module BackupId {
  import opened Common
  import opened Base36

  /** INVALID_BACKUP_ID */
  const INVALID_BACKUP_ID: int := 0

  /** The part of pgBackup that the identifier functions read and write. */
  class PgBackup {
    /** backup_id: a time_t, converted to unsigned long when encoded. */
    var backupId: int
    var startTime: int
    /** backup_id_encoded[base36bufsize]: empty (first cell NUL) until first asked for. */
    const encoded: array<char>

    predicate Valid()
      reads this
    {
      encoded.Length == BUF_SIZE
    }

    /** The text currently held in backup_id_encoded. */
    function EncodedText(): (s: string)
      requires Valid()
      reads this, encoded
      ensures |s| <= BUF_SIZE
    {
      CString(encoded[..])
    }

    constructor(backupId: int, startTime: int)
      ensures Valid() && fresh(encoded)
      ensures this.backupId == backupId && this.startTime == startTime
      ensures encoded[..] == seq(BUF_SIZE, _ => '\0')
    {
      this.backupId := backupId;
      this.startTime := startTime;
      encoded := new char[BUF_SIZE](_ => '\0');
    }

    /**
     * backup_id_of: the identifier encoded only when the buffer is still
     * empty; otherwise the text already there is returned unchanged. The
     * source asserts that the identifier is the start time (or that no
     * start time is set).
     */
    method BackupIdOf() returns (id: string)
      requires Valid()
      requires backupId == startTime || startTime == 0
      modifies encoded
      ensures Valid()
      ensures |Digits(backupId % UINT64_MODULUS)| < BUF_SIZE
      ensures old(encoded[0]) == '\0' ==>
                encoded[..] == Padded(Digits(backupId % UINT64_MODULUS), BUF_SIZE)
      ensures old(encoded[0]) != '\0' ==> encoded[..] == old(encoded[..])
      ensures id == EncodedText() && id != []
      ensures old(encoded[0]) == '\0' ==> Decode(id) == backupId % UINT64_MODULUS
    {
      DigitsFitBuffer(backupId % UINT64_MODULUS);
      if encoded[0] == '\0' {
        var value := backupId % UINT64_MODULUS;
        EncodeTo(value, encoded);
        DecodeBuffer(value);
      }
      id := CString(encoded[..]);
    }

    /** reset_backup_id: the identifier becomes invalid and the text is cleared. */
    method ResetBackupId()
      requires Valid()
      modifies this, encoded
      ensures Valid() && startTime == old(startTime)
      ensures backupId == INVALID_BACKUP_ID
      ensures encoded[..] == seq(BUF_SIZE, _ => '\0')
      ensures EncodedText() == []
    {
      backupId := INVALID_BACKUP_ID;
      var i := 0;
      while i < encoded.Length
        modifies encoded
        invariant 0 <= i <= encoded.Length
        invariant forall j :: 0 <= j < i ==> encoded[j] == '\0'
      {
        encoded[i] := '\0';
        i := i + 1;
      }
    }
  }

  /** Asking twice gives the same text, and it reads back as the identifier. */
  method BackupIdOfTwice(b: PgBackup) returns (first: string, second: string)
    requires b.Valid() && b.backupId == b.startTime
    requires b.encoded[0] == '\0'
    modifies b.encoded
    ensures first == second
    ensures Decode(first) == b.backupId % UINT64_MODULUS
  {
    first := b.BackupIdOf();
    second := b.BackupIdOf();
  }

  /** After a reset, the next request encodes the new identifier afresh. */
  method ResetThenEncode(b: PgBackup, newId: int) returns (id: string)
    requires b.Valid()
    modifies b, b.encoded
    ensures Decode(id) == newId % UINT64_MODULUS
  {
    b.ResetBackupId();
    b.backupId := newId;
    b.startTime := newId;
    id := b.BackupIdOf();
  }
}
