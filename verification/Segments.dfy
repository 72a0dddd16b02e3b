/** Packets and the way a file is cut into them (MP2/packet.h, MP2/sender_state_machine.cpp). */
module Segments {

  const NUL: char := '\0'

  /** A multiple of 100, the payload size of a full packet. */
  predicate Aligned(pos: nat) {
    pos == 0 || (pos >= 100 && Aligned(pos - 100))
  }

  lemma AlignedIsMultiple(pos: nat)
    ensures Aligned(pos) <==> pos % 100 == 0
  {
  }

  lemma AlignedAfter(p: nat)
    requires Aligned(p)
    ensures forall q :: p <= q < p + 100 && Aligned(q) ==> q == p
    ensures Aligned(p + 100)
  {
    forall q | p < q && Aligned(q) ensures p + 100 <= q {
      AlignedGap(p, q);
    }
  }

  lemma AlignedGap(p: nat, q: nat)
    requires Aligned(p) && Aligned(q) && p < q
    ensures p + 100 <= q
  {
  }

  /** `data` holds the data_len bytes of the payload, so data_len is |data|. */
  datatype Packet = Packet(seqNum: nat, ackNum: nat, ack: bool, fin: bool, data: string)

  /** C's strlen on a buffer whose terminator may be missing. */
  function StrLen(d: string): (n: nat)
    ensures n <= |d| && forall i :: 0 <= i < n ==> d[i] != NUL
    ensures n < |d| ==> d[n] == NUL
  {
    if d == [] || d[0] == NUL then 0
    else 1 + StrLen(d[1..])
  }

  function Zeros(n: nat): string {
    seq(n, _ => NUL)
  }

  /** std::string(data) followed by resize(len). */
  function Resize(d: string, len: nat): string {
    if len <= |d| then d[..len] else d + Zeros(len - |d|)
  }

  /** What a payload looks like after a strlen-bounded copy into a zeroed buffer. */
  function Blank(d: string): (b: string)
    ensures |b| == |d|
  {
    d[..StrLen(d)] + Zeros(|d| - StrLen(d))
  }

  lemma StrLenUnique(d: string, n: nat)
    requires n <= |d| && (forall i :: 0 <= i < n ==> d[i] != NUL) && (n < |d| ==> d[n] == NUL)
    ensures StrLen(d) == n
  {
  }

  /** Storing an early payload through std::string blanks nothing that the sender had not blanked. */
  lemma BlankTwice(d: string)
    ensures Blank(Blank(d)) == Blank(d)
  {
    StrLenUnique(Blank(d), StrLen(d));
  }

  predicate TextEndsAtNul(d: string) {
    forall i, j :: 0 <= i < j < |d| && d[i] == NUL ==> d[j] == NUL
  }

  lemma BlankKeepsText(d: string)
    ensures Blank(d) == d <==> TextEndsAtNul(d)
  {
    hide StrLen;
    var n := StrLen(d);
    if Blank(d) == d {
      forall i, j | 0 <= i < j < |d| && d[i] == NUL ensures d[j] == NUL {
        assert n <= i;
        assert Blank(d)[j] == NUL;
      }
    }
  }

  function SegEnd(f: string, pos: nat): (e: nat)
    requires pos <= |f|
    ensures pos <= e <= |f| && e <= pos + 100
  {
    if |f| - pos < 100 then |f| else pos + 100
  }

  predicate IsLast(f: string, pos: nat)
    requires pos <= |f|
  {
    |f| - pos < 100
  }

  /** The positions at which a packet may start: the multiples of 100, and the end of the file. */
  predicate SegPos(f: string, pos: nat) {
    pos <= |f| && (Aligned(pos) || pos == |f|)
  }

  /** The data packet for position `pos`, numbered by 1-based byte position. */
  function Seg(f: string, pos: nat): Packet
    requires pos <= |f|
  {
    Packet(pos + 1, 0, false, IsLast(f, pos), Blank(f[pos..SegEnd(f, pos)]))
  }

  function SegStart(i: nat): (p: nat)
    ensures p <= i < p + 100 && Aligned(p)
  {
    if i < 100 then 0 else SegStart(i - 100) + 100
  }

  lemma SegStartUnique(i: nat, p: nat)
    requires p <= i < p + 100 && Aligned(p)
    ensures SegStart(i) == p
  {
    var q := SegStart(i);
    if p < q {
      AlignedGap(p, q);
    } else if q < p {
      AlignedGap(q, p);
    }
  }

  /** Byte `i` of the file as its own segment carries it. */
  function ByteAt(f: string, i: nat): char
    requires i < |f|
  {
    var p := SegStart(i);
    Blank(f[p..SegEnd(f, p)])[i - p]
  }

  /** The bytes that the segments of `f` carry, in order. */
  function Delivered(f: string): (g: string)
    ensures |g| == |f|
  {
    seq(|f|, i requires 0 <= i < |f| => ByteAt(f, i))
  }

  lemma DeliveredAt(f: string, pos: nat)
    requires SegPos(f, pos)
    ensures Delivered(f)[pos..SegEnd(f, pos)] == Seg(f, pos).data
  {
    hide StrLen, Blank, Aligned;
    forall j | 0 <= j < SegEnd(f, pos) - pos
      ensures Delivered(f)[pos..SegEnd(f, pos)][j] == Seg(f, pos).data[j]
    {
      SegStartUnique(pos + j, pos);
    }
  }

  /** No segment of the file has anything but NULs behind its first NUL. */
  ghost predicate NothingAfterNul(f: string) {
    forall p :: 0 <= p <= |f| && Aligned(p) ==> TextEndsAtNul(f[p..SegEnd(f, p)])
  }

  predicate CleanSegment(f: string, p: nat)
    requires p <= |f|
  {
    Blank(f[p..SegEnd(f, p)]) == f[p..SegEnd(f, p)]
  }

  lemma CleanSegments(f: string)
    ensures Delivered(f) == f <==> forall p :: 0 <= p <= |f| && Aligned(p) ==> CleanSegment(f, p)
  {
    hide StrLen, Blank, Aligned;
    if Delivered(f) == f {
      forall p | 0 <= p <= |f| && Aligned(p) ensures CleanSegment(f, p) {
        DeliveredAt(f, p);
      }
    } else {
      var i :| 0 <= i < |f| && Delivered(f)[i] != f[i];
      assert !CleanSegment(f, SegStart(i));
    }
  }

  /** The transport keeps a file's bytes exactly when no segment has text behind a NUL. */
  lemma DeliveredIsFileIff(f: string)
    ensures Delivered(f) == f <==> NothingAfterNul(f)
  {
    hide StrLen, Blank, Aligned, Delivered;
    CleanSegments(f);
    forall p | 0 <= p <= |f| && Aligned(p)
      ensures CleanSegment(f, p) <==> TextEndsAtNul(f[p..SegEnd(f, p)])
    {
      BlankKeepsText(f[p..SegEnd(f, p)]);
    }
  }

  lemma NulFreeFileIsDelivered(f: string)
    requires NUL !in f
    ensures Delivered(f) == f
  {
    hide StrLen, Blank, Aligned, Delivered;
    DeliveredIsFileIff(f);
  }

  /** All segments from `pos` on, as the send loop would produce them with an unlimited window. */
  function AllSegs(f: string, pos: nat): seq<Packet>
    requires pos <= |f|
    decreases |f| - pos
  {
    if IsLast(f, pos) then [Seg(f, pos)] else [Seg(f, pos)] + AllSegs(f, pos + 100)
  }

  function Concat(ps: seq<Packet>): string {
    if ps == [] then "" else ps[0].data + Concat(ps[1..])
  }

  /** Cutting a file up and gluing the payloads together gives the delivered bytes. */
  lemma {:induction false} CutThenGlue(f: string, pos: nat)
    requires pos <= |f| && Aligned(pos)
    ensures Concat(AllSegs(f, pos)) == Delivered(f)[pos..]
    decreases |f| - pos
  {
    hide StrLen, Blank, Seg, Delivered;
    DeliveredAt(f, pos);
    var segs, g := AllSegs(f, pos), Delivered(f);
    if IsLast(f, pos) {
      assert segs[1..] == [];
    } else {
      AlignedAfter(pos);
      CutThenGlue(f, pos + 100);
      assert segs[1..] == AllSegs(f, pos + 100);
      assert g[pos..pos + 100] + g[pos + 100..] == g[pos..];
    }
  }

  /** The pieces are numbered consecutively, and FIN stands on the last one and on no other. */
  lemma {:induction false} CutNumbering(f: string, pos: nat)
    requires pos <= |f|
    ensures var segs := AllSegs(f, pos);
            && |segs| == (|f| - pos) / 100 + 1
            && forall i :: 0 <= i < |segs| ==>
                 segs[i].seqNum == pos + 100 * i + 1 && (segs[i].fin <==> i == |segs| - 1)
    decreases |f| - pos
  {
    hide StrLen, Blank;
    if !IsLast(f, pos) {
      CutNumbering(f, pos + 100);
      var segs, rest := AllSegs(f, pos), AllSegs(f, pos + 100);
      forall i | 0 <= i < |segs|
        ensures segs[i].seqNum == pos + 100 * i + 1 && (segs[i].fin <==> i == |segs| - 1)
      {
        if i > 0 {
          assert segs[i] == rest[i - 1];
        }
      }
    }
  }
}
