/**
 * Reading pg_control (src/util.c: digestControlFile, checkControlFile,
 * get_redo). The file's bytes are given already decoded into the fields
 * that these functions read; the CRC-32C of the bytes before the crc field
 * is given as a computed value.
 */
module Control {
  import opened Common

  /** PG_CONTROL_FILE_SIZE */
  const PG_CONTROL_FILE_SIZE: nat := 8192

  /** The fields of ControlFileData used here. Log positions and versions are unsigned. */
  datatype ControlFileData = ControlFileData(
    pgControlVersion: nat,
    checkPointRedo: nat,
    checkPointTli: nat,
    minRecoveryPoint: nat,
    minRecoveryPointTli: nat,
    backupStartPoint: nat,
    dataChecksumVersion: nat,
    crc: nat)

  datatype ControlError =
    | SizeMismatch(size: nat)
    | CrcMismatch
    | ByteOrderMismatch

  /**
   * The byte-order test of checkControlFile: the low half of the version is
   * 0 or above 10000, and the high half is not 0.
   */
  predicate ByteOrderSuspect(version: nat) {
    (version % 65536 == 0 || version % 65536 > 10000) && version / 65536 != 0
  }

  /**
   * digestControlFile followed by checkControlFile: the size is checked
   * first, then the CRC, then the byte order; the first failure is reported.
   */
  function DigestControlFile(size: nat, cf: ControlFileData, computedCrc: nat)
    : (r: Result<ControlFileData, ControlError>)
    ensures r.Ok? <==>
              size == PG_CONTROL_FILE_SIZE && computedCrc == cf.crc && !ByteOrderSuspect(cf.pgControlVersion)
    ensures r.Ok? ==> r.value == cf
    ensures size != PG_CONTROL_FILE_SIZE ==> r == Err(SizeMismatch(size))
    ensures size == PG_CONTROL_FILE_SIZE && computedCrc != cf.crc ==> r == Err(CrcMismatch)
  {
    if size != PG_CONTROL_FILE_SIZE then Err(SizeMismatch(size))
    else if computedCrc != cf.crc then Err(CrcMismatch)
    else if ByteOrderSuspect(cf.pgControlVersion) then Err(ByteOrderMismatch)
    else Ok(cf)
  }

  /** The four bytes of a 32-bit value in the opposite order. */
  function Swap32(v: nat): (w: nat)
    requires v < UINT32_MODULUS
    ensures w < UINT32_MODULUS
  {
    (v % 256) * 0x100_0000 + ((v / 256) % 256) * 0x1_0000 + ((v / 0x1_0000) % 256) * 256 + v / 0x100_0000
  }

  /** Every version below 65536 passes the byte-order test. */
  lemma SmallVersionsPass(version: nat)
    requires version < 65536
    ensures !ByteOrderSuspect(version)
  {
  }

  /** A nonzero version below 65536 read with the wrong byte order is caught. */
  lemma SwappedVersionsFail(version: nat)
    requires 0 < version < 65536
    ensures ByteOrderSuspect(Swap32(version))
  {
    var w := Swap32(version);
    var lo, hi := version % 256, version / 256;
    assert version == hi * 256 + lo && hi < 256;
    assert w == lo * 0x100_0000 + hi * 0x1_0000;
    assert w % 65536 == 0;
    assert w / 65536 == lo * 256 + hi;
  }

  // ---------------------------------------------------------------------
  // get_redo
  // ---------------------------------------------------------------------

  datatype RedoParams = RedoParams(lsn: nat, tli: nat, checksumVersion: nat)

  /** The redo position: the least of the checkpoint's redo and the positive recovery points. */
  function RedoLsn(cf: ControlFileData): (lsn: nat)
    ensures lsn <= cf.checkPointRedo
    ensures cf.minRecoveryPoint > 0 ==> lsn <= cf.minRecoveryPoint
    ensures cf.backupStartPoint > 0 ==> lsn <= cf.backupStartPoint
    ensures lsn == cf.checkPointRedo
            || (lsn == cf.minRecoveryPoint && lsn > 0)
            || (lsn == cf.backupStartPoint && lsn > 0)
  {
    var a := cf.checkPointRedo;
    var b := if 0 < cf.minRecoveryPoint < a then cf.minRecoveryPoint else a;
    if 0 < cf.backupStartPoint < b then cf.backupStartPoint else b
  }

  /**
   * The timeline that goes with it: the minimum recovery point's timeline
   * when that point alone decided the position, the checkpoint's otherwise.
   */
  function RedoTli(cf: ControlFileData): nat {
    if 0 < cf.minRecoveryPoint < cf.checkPointRedo && !(0 < cf.backupStartPoint < cf.minRecoveryPoint)
    then cf.minRecoveryPointTli
    else cf.checkPointTli
  }

  /**
   * get_redo: the control file is digested, then the redo position and
   * timeline are lowered step by step.
   */
  method GetRedo(size: nat, cf: ControlFileData, computedCrc: nat)
    returns (r: Result<RedoParams, ControlError>)
    ensures DigestControlFile(size, cf, computedCrc).Err? ==>
              r == Err(DigestControlFile(size, cf, computedCrc).error)
    ensures DigestControlFile(size, cf, computedCrc).Ok? ==>
              r == Ok(RedoParams(RedoLsn(cf), RedoTli(cf), cf.dataChecksumVersion))
  {
    var digested := DigestControlFile(size, cf, computedCrc);
    if digested.Err? {
      return Err(digested.error);
    }
    var controlFile := digested.value;
    var lsn := controlFile.checkPointRedo;
    var tli := controlFile.checkPointTli;
    if controlFile.minRecoveryPoint > 0 && controlFile.minRecoveryPoint < lsn {
      lsn := controlFile.minRecoveryPoint;
      tli := controlFile.minRecoveryPointTli;
    }
    if controlFile.backupStartPoint > 0 && controlFile.backupStartPoint < lsn {
      lsn := controlFile.backupStartPoint;
      tli := controlFile.checkPointTli;
    }
    return Ok(RedoParams(lsn, tli, controlFile.dataChecksumVersion));
  }

  /** The minimum recovery point's timeline is taken exactly when its position is. */
  lemma RedoTliFollowsLsn(cf: ControlFileData)
    requires cf.minRecoveryPoint < cf.checkPointRedo
    requires cf.backupStartPoint != cf.minRecoveryPoint
    ensures RedoTli(cf) == (if RedoLsn(cf) == cf.minRecoveryPoint && cf.minRecoveryPoint > 0
                            then cf.minRecoveryPointTli else cf.checkPointTli)
  {
  }

  /** With no recovery point and no backup start recorded, the checkpoint decides. */
  lemma RedoOfPlainCheckpoint(cf: ControlFileData)
    requires cf.minRecoveryPoint == 0 && cf.backupStartPoint == 0
    ensures RedoLsn(cf) == cf.checkPointRedo && RedoTli(cf) == cf.checkPointTli
  {
  }
}
