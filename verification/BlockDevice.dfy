/** The disk behind disk_read / disk_write / disk_ioctl. */
module BlockDevice {
  import opened FatTypes

  /**
    A device of 512-byte sectors. Unless it is reliable any operation may fail; a failed write
    leaves the sectors it addressed with any content, a failed read does the same to the buffer.
    On an atomic device a sector is written as a whole: it has its old content or the new one.
  */
  class Disk {
    var img: seq<Sector>
    const reliable: bool
    const atomic: bool

    constructor (content: seq<Sector>, reliable: bool, atomic: bool)
      ensures img == content && this.reliable == reliable && this.atomic == atomic
    {
      img := content;
      this.reliable, this.atomic := reliable, atomic;
    }

    /** Whether the device accepts an access to existing sectors. */
    method Ready() returns (ok: bool)
      ensures reliable ==> ok
    {
      var fails: bool := *;
      ok := reliable || !fails;
    }

    method ReadSector(buff: array<byte>, sect: nat) returns (ok: bool)
      requires buff.Length == 512
      modifies buff
      ensures ok ==> sect < |img| && buff[..] == img[sect]
      ensures reliable && sect < |img| ==> ok
    {
      ok := Ready();
      ok := ok && sect < |img|;
      var src: Sector :| true;
      if ok { src := img[sect]; }
      forall i | 0 <= i < 512 { buff[i] := src[i]; }
      assert buff[..] == src;
    }

    method WriteSector(data: Sector, sect: nat) returns (ok: bool)
      modifies this`img
      ensures |img| == |old(img)|
      ensures ok ==> sect < |img| && img == old(img)[sect := data]
      ensures !ok ==> forall s | 0 <= s < |img| && s != sect :: img[s] == old(img)[s]
      ensures atomic && sect < |img| ==> img[sect] == old(img)[sect] || img[sect] == data
      ensures reliable && sect < |img| ==> ok
    {
      ok := Ready();
      ok := ok && sect < |img|;
      var done: bool := *;
      var written: Sector :| true;
      if ok || (atomic && done) { written := data; } else if atomic && sect < |img| { written := img[sect]; }
      if sect < |img| { img := img[sect := written]; }
    }

    /** Reads cnt consecutive sectors into buff[at..]. */
    method ReadRun(buff: array<byte>, at: nat, sect: nat, cnt: nat) returns (ok: bool)
      requires at + cnt * 512 <= buff.Length
      modifies buff
      ensures forall i | 0 <= i < buff.Length && !(at <= i < at + cnt * 512) :: buff[i] == old(buff[i])
      ensures ok ==> sect + cnt <= |img|
      ensures ok ==> forall i | 0 <= i < cnt * 512 :: buff[at + i] == img[sect + i / 512][i % 512]
      ensures reliable && sect + cnt <= |img| ==> ok
    {
      ok := Ready();
      ok := ok && sect + cnt <= |img|;
      if ok {
        forall i | 0 <= i < cnt * 512 { buff[at + i] := img[sect + i / 512][i % 512]; }
      } else {
        var junk: byte := *;
        forall i | 0 <= i < cnt * 512 { buff[at + i] := junk; }
      }
    }

    /** Writes cnt consecutive sectors from data. */
    method WriteRun(data: seq<byte>, sect: nat, cnt: nat) returns (ok: bool)
      requires |data| == cnt * 512
      modifies this`img
      ensures |img| == |old(img)|
      ensures forall s | 0 <= s < |img| && !(sect <= s < sect + cnt) :: img[s] == old(img)[s]
      ensures ok ==> sect + cnt <= |img| && forall s: nat | sect <= s < sect + cnt :: img[s] == Chunk(data, s - sect)
      ensures reliable && sect + cnt <= |img| ==> ok
    {
      ok := Ready();
      ok := ok && sect + cnt <= |img|;
      if ok {
        var was := img;
        img := seq(|was|, s requires 0 <= s < |was| =>
          if sect <= s < sect + cnt then data[(s - sect) * 512..(s - sect) * 512 + 512] else was[s]);
      }
    }

    /** disk_ioctl(CTRL_SYNC). */
    method Sync() returns (ok: bool)
      ensures reliable ==> ok
    {
      ok := Ready();
    }
  }
}
