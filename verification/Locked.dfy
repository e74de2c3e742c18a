/**
 The fixed-capacity buffer that secrets live in (`src/locked.rs`): contents,
 length and wiping. Page locking is not part of this model.
 */
module Locked {
  import opened Wrappers
  import opened Bytes
  import opened CipherStrings
  import Padding

  class LockedVec {
    const cells: array<byte>
    var len: nat

    ghost predicate Valid()
      reads this
    {
      cells.Length == CAPACITY && len <= CAPACITY
    }

    ghost function Contents(): seq<byte>
      requires Valid()
      reads this, cells
    {
      cells[..len]
    }

    constructor ()
      ensures Valid() && fresh(cells)
      ensures Contents() == []
    {
      cells := new byte[CAPACITY];
      len := 0;
    }

    /** Appends; past the capacity the source panics. */
    method Extend(bytes: seq<byte>)
      requires Valid() && len + |bytes| <= CAPACITY
      modifies this`len, cells
      ensures Valid()
      ensures Contents() == old(Contents()) + bytes
      ensures forall i :: len <= i < CAPACITY ==> cells[i] == old(cells[i])
    {
      for i := 0 to |bytes|
        invariant len == old(len)
        invariant forall j :: 0 <= j < i ==> cells[len + j] == bytes[j]
        invariant forall j :: 0 <= j < len || len + i <= j < CAPACITY ==> cells[j] == old(cells[j])
      {
        cells[len + i] := bytes[i];
      }
      len := len + |bytes|;
    }

    /** Shortens the buffer, wiping what it gives up; never lengthens it. */
    method Truncate(n: nat)
      requires Valid()
      modifies this`len, cells
      ensures Valid()
      ensures len == if n < old(len) then n else old(len)
      ensures Contents() == old(Contents())[..len]
      ensures forall i :: n <= i < old(len) ==> cells[i] == 0
      ensures forall i :: old(len) <= i < CAPACITY ==> cells[i] == old(cells[i])
    {
      if n < len {
        for i := n to len
          invariant len == old(len)
          invariant forall j :: n <= j < i ==> cells[j] == 0
          invariant forall j :: 0 <= j < n || i <= j < CAPACITY ==> cells[j] == old(cells[j])
        {
          cells[i] := 0;
        }
        len := n;
      }
    }

    /** Fills the whole capacity with zeros. */
    method Zero()
      requires Valid()
      modifies this`len, cells
      ensures Valid()
      ensures Contents() == Repeat(0, CAPACITY)
    {
      Truncate(0);
      Extend(Repeat(0, CAPACITY));
    }
  }

  /** `decrypt_locked_symmetric`: the buffer is decrypted where it lies, and keeps its padding. */
  method DecryptInPlace(c: Crypto, keys: Keys, cs: CipherString) returns (r: Result<LockedVec, Error>)
    requires c.Lawful()
    ensures r.Ok? ==> fresh(r.value) && fresh(r.value.cells) && r.value.Valid()
    ensures r.Ok? ==> DecryptLockedSymmetric(c, keys, cs) == Ok(r.value.Contents())
    ensures r.Err? ==> DecryptLockedSymmetric(c, keys, cs) == Err(r.error)
  {
    if cs.Asymmetric? {
      return Err(InvalidCipherString);
    }
    if |cs.ciphertext| > CAPACITY {
      return Err(Panic);
    }
    var res := new LockedVec();
    res.Extend(cs.ciphertext);
    assert res.Contents() == cs.ciphertext;
    var checked := CheckSealed(c, keys, cs);
    if checked.Err? {
      return Err(checked.error);
    }
    if res.len % 16 != 0 {
      return Err(Decrypt);
    }
    var blocks := c.aesDecrypt(keys.EncKey(), cs.iv, res.cells[..res.len]);
    for i := 0 to res.len
      invariant res.len == |blocks|
      invariant forall j :: 0 <= j < i ==> res.cells[j] == blocks[j]
    {
      res.cells[i] := blocks[i];
    }
    assert res.Contents() == blocks;
    if Padding.UnpadBlocks(blocks).None? {
      return Err(Decrypt);
    }
    r := Ok(res);
  }
}
