/** fileread (file.c), and the loop in which programs read a file to its end (cat.c). */
module FileRead {
  import opened Common
  import opened Blocks
  import opened Fs
  import opened FsFile
  import opened FileSystem

  /** fileread of an inode: the bytes from the offset on, and the offset past them. */
  method Fileread(v: Volume, ino: nat, off0: nat, n: nat) returns (r: int, dst: seq<Byte>, off: nat)
    requires v.Valid() && ino < |v.inodes| && off0 < TWO_32 && n < 0x8000_0000
    modifies v
    ensures v.Valid() && v.Snap() == old(v.Snap())
    ensures r == -1 <==> off0 > v.inodes[ino].size || off0 + n >= TWO_32
    ensures r == -1 ==> off == off0 && dst == []
    ensures r != -1 ==> r == |dst| && off == off0 + |dst| <= v.inodes[ino].size && dst == Contents(v.Snap(), ino)[off0..off]
    ensures r != -1 ==> off == off0 + n || off == v.inodes[ino].size
  {
    hide Owned, NoHoles, BitsAre, Contents;
    r, dst := v.Readi(ino, off0, n);
    off := if r > 0 then off0 + r else off0;
  }

  lemma {:induction false} SizeIsSmall(d: Disk, ino: nat)
    requires NoHoles(d) && ino < |d.inodes|
    ensures d.inodes[ino].size <= MAXFILE * BSIZE < 0x8000_0000
  {
  }

  /** Reads of n bytes from the start, each where the last one ended, until one returns nothing: together they are the file. */
  method ReadToEnd(v: Volume, ino: nat, n: nat) returns (data: seq<Byte>)
    requires v.Valid() && ino < |v.inodes| && 0 < n < 0x8000_0000
    modifies v
    ensures v.Valid() && v.Snap() == old(v.Snap()) && data == Contents(v.Snap(), ino)
  {
    hide Owned, NoHoles, BitsAre, Contents;
    ghost var d := v.Snap();
    SizeIsSmall(d, ino);
    var off := 0;
    data := [];
    var more := true;
    while more
      invariant v.Valid() && v.Snap() == d && off <= d.inodes[ino].size && data == Contents(d, ino)[..off]
      invariant !more ==> off == d.inodes[ino].size
      decreases d.inodes[ino].size - off, more
    {
      var r, dst;
      r, dst, off := Fileread(v, ino, off, n);
      data := data + dst;
      more := r > 0;
    }
  }
}
