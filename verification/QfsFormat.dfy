/** The 60-byte packed inode shared by the image builder and the kernel. */
module QfsFormat {
  import opened Bytes

  // A sector has 512 bytes, a packed inode 60, its name field 32. These stand as literals in
  // the arithmetic below.

  const PERM_FILE := 1
  const PERM_DIR := 8

  datatype Inode = Inode(chunkaddr1: nat, chunklen: nat, perms: nat, owner: nat, group: nat,
                         timestamp: nat, name: seq<byte>)
  {
    /** Every field fits the width it has in the packed struct. */
    ghost predicate Valid() {
      chunkaddr1 < Pow256(8) && chunklen < Pow256(8) && perms < Pow256(2) && owner < 256 && group < 256
      && timestamp < Pow256(8) && |name| == 32
    }
  }

  function Encode(n: Inode): (b: seq<byte>)
    requires |n.name| == 32
    ensures |b| == 60
  {
    Le(n.chunkaddr1, 8) + Le(n.chunklen, 8) + Le(n.perms, 2) + Le(n.owner, 1) + Le(n.group, 1)
    + Le(n.timestamp, 8) + n.name
  }

  function Decode(b: seq<byte>): (n: Inode)
    requires |b| == 60
    ensures |n.name| == 32
  {
    Inode(FromLe(b[0..8]), FromLe(b[8..16]), FromLe(b[16..18]), FromLe(b[18..19]), FromLe(b[19..20]),
          FromLe(b[20..28]), b[28..60])
  }

  lemma EncodedFields(n: Inode)
    requires |n.name| == 32
    ensures var b := Encode(n);
            b[0..8] == Le(n.chunkaddr1, 8) && b[8..16] == Le(n.chunklen, 8) && b[16..18] == Le(n.perms, 2)
            && b[18..19] == Le(n.owner, 1) && b[19..20] == Le(n.group, 1) && b[20..28] == Le(n.timestamp, 8)
            && b[28..60] == n.name
  {
  }

  lemma DecodeEncode(n: Inode)
    requires n.Valid()
    ensures Decode(Encode(n)) == n
  {
    EncodedFields(n);
    LeRoundTrip(n.chunkaddr1, 8);
    LeRoundTrip(n.chunklen, 8);
    LeRoundTrip(n.perms, 2);
    assert Pow256(1) == 256;
    LeRoundTrip(n.owner, 1);
    LeRoundTrip(n.group, 1);
    LeRoundTrip(n.timestamp, 8);
  }

  /** The name field as `strncpy` leaves it: zero-padded, cut at 32 bytes. */
  function NameField(name: seq<byte>): (f: seq<byte>)
    ensures |f| == 32
    ensures 0 !in name && |name| < 32 ==> CStr(f) == name
  {
    if |name| < 32 then
      var f := Pad(name, 32);
      assert 0 !in name ==> CStr(f) == name by {
        if 0 !in name { CStrOfPadded(name, f); }
      }
      f
    else
      name[..32]
  }

  function ConstructInode(chunkaddr1: nat, chunklen: nat, perms: nat, owner: nat, group: nat, timestamp: nat,
                          name: seq<byte>): (n: Inode)
    ensures |n.name| == 32
    ensures 0 !in name && |name| < 32 ==> CStr(n.name) == name
  {
    Inode(chunkaddr1, chunklen, perms, owner, group, timestamp, NameField(name))
  }

  /** The inode with number `id` of an inode table that starts at byte 0 of `fs`. */
  function InodeAt(fs: seq<byte>, id: nat): (n: Inode)
    requires 60 * (id + 1) <= |fs|
    ensures |n.name| == 32
  {
    Decode(fs[60 * id..60 * (id + 1)])
  }

  /** Bytes rounded up to whole sectors, as both programs count them. */
  function SectorsFor(bytes: nat): (n: nat)
    ensures 512 * n >= bytes && 512 * n < bytes + 512
    ensures n == 0 <==> bytes == 0
  {
    bytes / 512 + (if bytes % 512 != 0 then 1 else 0)
  }

  /** The 64-bit words of a directory region. */
  function Words(ids: seq<nat>): (b: seq<byte>)
    ensures |b| == 8 * |ids|
  {
    if ids == [] then [] else Le(ids[0], 8) + Words(ids[1..])
  }

  function WordAt(b: seq<byte>, i: nat): nat
    requires 8 * (i + 1) <= |b|
  {
    FromLe(b[8 * i..8 * i + 8])
  }

  lemma {:induction false} WordsSlice(ids: seq<nat>, i: nat)
    requires i < |ids|
    ensures Words(ids)[8 * i..8 * i + 8] == Le(ids[i], 8)
  {
    if i > 0 {
      WordsSlice(ids[1..], i - 1);
      var b := Words(ids);
      assert b[8..] == Words(ids[1..]);
      assert b[8 * i..8 * i + 8] == b[8..][8 * (i - 1)..8 * (i - 1) + 8];
    }
  }

  lemma WordsAt(ids: seq<nat>, b: seq<byte>, i: nat)
    requires i < |ids| && ids[i] < Pow256(8)
    requires |b| >= 8 * |ids| && b[..8 * |ids|] == Words(ids)
    ensures WordAt(b, i) == ids[i]
  {
    WordsSlice(ids, i);
    var w := Words(ids);
    assert w[0..|w|] == w && b[0..|w|] == w;
    SlicesOfEqual(w, b, 0, |w|, 8 * i, 8 * i + 8);
    LeRoundTrip(ids[i], 8);
  }

  lemma ZeroWordAt(b: seq<byte>, i: nat)
    requires 8 * (i + 1) <= |b|
    requires forall k | 8 * i <= k < 8 * i + 8 :: b[k] == 0
    ensures WordAt(b, i) == 0
  {
    FromLeZeros(b[8 * i..8 * i + 8]);
  }

  /** Storing word `|ids|` of a zero-padded word array. */
  lemma StoreNextWord(ids: seq<nat>, id: nat, n: nat)
    requires 8 * (|ids| + 1) <= n
    ensures Splice(Pad(Words(ids), n), 8 * |ids|, Le(id, 8)) == Pad(Words(ids + [id]), n)
  {
    WordsAppend(ids, id);
  }

  lemma {:induction false} WordsAppend(ids: seq<nat>, id: nat)
    ensures Words(ids + [id]) == Words(ids) + Le(id, 8)
  {
    if ids != [] {
      assert (ids + [id])[1..] == ids[1..] + [id];
      WordsAppend(ids[1..], id);
    } else {
      assert ids + [id] == [id];
      assert Words([]) == [];
    }
  }
}
