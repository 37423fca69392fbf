/**
 The vocabulary of a delta transfer: the block sums the generator describes a
 basis file with, the tokens the sender emits, and what the tokens mean.
 */
module Delta {
  import opened Bytes
  import opened Rolling

  const CHUNK_SIZE := 32 * 1024

  datatype Token = Literal(data: seq<byte>) | Copy(i: nat) | End

  datatype SumBuf = SumBuf(offset: nat, len: nat, sum1: int, sum2: seq<byte>)

  /** One file transfer: `strong` is the negotiated digest cut to s2length bytes. */
  datatype Job = Job(src: seq<byte>, blength: nat, sums: seq<SumBuf>, strong: seq<byte> -> seq<byte>, inPlace: bool)
  {
    function WindowLen(offset: nat): nat
      requires offset <= |src|
    {
      if blength < |src| - offset then blength else |src| - offset
    }

    function Window(offset: nat, k: nat): seq<byte>
      requires offset + k <= |src|
    {
      src[offset..offset + k]
    }

    /** The window hash_search looks at when it stands at `offset`. */
    function Here(offset: nat): seq<byte>
      requires offset <= |src|
    {
      Window(offset, WindowLen(offset))
    }

    /** Block boundaries as receive_sums lays them out. */
    ghost predicate Geometry() {
      && 0 < blength
      && forall i :: 0 <= i < |sums| ==> sums[i].offset == i * blength && 1 <= sums[i].len <= blength
    }

    /** Both checksums and the length agree with the window at `offset`. */
    predicate Hit(i: nat, offset: nat)
      requires i < |sums| && offset <= |src|
    {
      && sums[i].sum1 == Weak(Here(offset))
      && sums[i].len == WindowLen(offset)
      && sums[i].sum2 == strong(Here(offset))
    }

    /** The basis bytes that block `i` stands for. */
    function Block(basis: seq<byte>, i: nat): seq<byte> {
      if i < |sums| && sums[i].offset + sums[i].len <= |basis|
      then basis[sums[i].offset..sums[i].offset + sums[i].len] else []
    }

    ghost predicate Inside(basis: seq<byte>) {
      forall i: nat :: i < |sums| ==> sums[i].offset + sums[i].len <= |basis|
    }

    /** The sums are those of the blocks of `basis`. */
    ghost predicate Describes(basis: seq<byte>) {
      && Geometry() && Inside(basis)
      && forall i :: 0 <= i < |sums| ==>
           && sums[i].sum1 == Weak(Block(basis, i))
           && sums[i].sum2 == strong(Block(basis, i))
    }

    /** Equal strong sums mean equal blocks, for the windows and blocks of this transfer. */
    ghost predicate CollisionFree(basis: seq<byte>) {
      forall o: nat, k: nat, i: nat ::
        o + k <= |src| && i < |sums| && strong(Window(o, k)) == sums[i].sum2 ==> Window(o, k) == Block(basis, i)
    }

    function TokenLen(t: Token): nat {
      match t
      case Literal(data) => |data|
      case Copy(i) => if i < |sums| then sums[i].len else 0
      case End => 0
    }

    /** How many output bytes the tokens stand for. */
    function OutLen(ts: seq<Token>): nat {
      if ts == [] then 0 else OutLen(ts[..|ts| - 1]) + TokenLen(ts[|ts| - 1])
    }

    function Piece(basis: seq<byte>, t: Token): seq<byte> {
      match t
      case Literal(data) => data
      case Copy(i) => Block(basis, i)
      case End => []
    }

    /** The file that the tokens build from an untouched basis. */
    function Replay(basis: seq<byte>, ts: seq<Token>): seq<byte> {
      if ts == [] then [] else
        Replay(basis, ts[..|ts| - 1]) + Piece(basis, ts[|ts| - 1])
    }

    /** Blocks that some token copies onto their own position. */
    function SameOffset(ts: seq<Token>): set<nat> {
      if ts == [] then {} else
        var init, last := ts[..|ts| - 1], ts[|ts| - 1];
        SameOffset(init) +
        if last.Copy? && last.i < |sums| && sums[last.i].offset == OutLen(init) then {last.i} else {}
    }

    /** Every copied block lies ahead of the write position, or was kept in place earlier. */
    predicate InPlaceSafe(ts: seq<Token>) {
      ts == [] ||
      var init, last := ts[..|ts| - 1], ts[|ts| - 1];
      && InPlaceSafe(init)
      && (last.Copy? ==>
            && last.i < |sums|
            && (sums[last.i].offset >= OutLen(init) || last.i in SameOffset(init)))
    }

    predicate LiteralsWithin(bound: nat, ts: seq<Token>) {
      forall t :: t in ts && t.Literal? ==> 0 < |t.data| <= bound
    }

    lemma OneMore(basis: seq<byte>, ts: seq<Token>, t: Token)
      ensures OutLen(ts + [t]) == OutLen(ts) + TokenLen(t)
      ensures Replay(basis, ts + [t]) == Replay(basis, ts) + Piece(basis, t)
      ensures InPlaceSafe(ts + [t]) <==>
              (InPlaceSafe(ts) && (t.Copy? ==> t.i < |sums| && (sums[t.i].offset >= OutLen(ts) || t.i in SameOffset(ts))))
      ensures SameOffset(ts + [t])
           == SameOffset(ts) + (if t.Copy? && t.i < |sums| && sums[t.i].offset == OutLen(ts) then {t.i} else {})
    {
      assert (ts + [t])[..|ts|] == ts;
    }

    lemma {:induction false} ReplayLength(basis: seq<byte>, ts: seq<Token>)
      requires Inside(basis)
      ensures |Replay(basis, ts)| == OutLen(ts)
    {
      if ts != [] {
        ReplayLength(basis, ts[..|ts| - 1]);
      }
    }
  }
}
