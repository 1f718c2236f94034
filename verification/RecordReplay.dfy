/** What is recorded can be replayed: the reader on the files that the recorder leaves. */
module RecordReplay {
  import opened Bytes
  import opened RecordIndex
  import G = FrameGetter

  /** Frames that one file can hold: each storable, all below 2 GiB, and the first with a real year. */
  ghost predicate Recordable(fs: seq<Frame>)
  {
    && (forall i :: 0 <= i < |fs| ==> Storable(fs[i]))
    && FileFits(fs)
    && (fs != [] ==> fs[0].at.sv.year != 0)
  }

  /** How the reader must show frame `i`. */
  function Replayed(fs: seq<Frame>, i: nat, diff: (Time, Time) -> int): G.VideoFrame
    requires i < |fs|
  {
    G.VideoFrame(fs[i].data, fs[i].kind, diff(fs[i].at.sv, fs[0].at.sv))
  }

  /** The frames before the first empty one. */
  function BeforeEmpty(fs: seq<Frame>): (n: nat)
    ensures n <= |fs|
    ensures forall i :: 0 <= i < n ==> fs[i].data != []
    ensures n < |fs| ==> fs[n].data == []
  {
    if fs == [] || fs[0].data == [] then 0 else 1 + BeforeEmpty(fs[1..])
  }

  lemma EntryOfLayout(fs: seq<Frame>, i: nat)
    requires Recordable(fs) && i < |fs|
    ensures G.Entry(Layout(fs).cif, i) == CifEntry(|RecordBytes(fs[..i])|, |fs[i].data|, fs[i].kind, fs[i].at.sv)
    ensures G.ReadFile(Layout(fs).record, |RecordBytes(fs[..i])|, |fs[i].data|) == fs[i].data
  {
    hide ReadCif, CifBytes, RecordBytes;
    CifEntryAt(fs, i);
    RecordTiling(fs, i);
    assert CIF_SIZE * (i + 1) == CIF_SIZE * i + CIF_SIZE;
  }

  /** Replay until the end of file: it shows the frames before the first empty one, and so the whole recording exactly when
      no recorded frame is empty. */
  method ReplayAll(files: FileSet, ghost fs: seq<Frame>, diff: (Time, Time) -> int) returns (shown: seq<G.VideoFrame>)
    requires Recordable(fs) && files == Layout(fs)
    ensures |shown| == BeforeEmpty(fs)
    ensures forall i :: 0 <= i < |shown| ==> shown[i] == Replayed(fs, i, diff)
    ensures forall i :: 0 <= i < |shown| ==>
      shown[i] == G.VideoFrame(fs[i].data, fs[i].kind, diff(fs[i].at.sv, fs[0].at.sv)) && fs[i].data != []
    ensures |shown| == |fs| <==> forall i :: 0 <= i < |fs| ==> fs[i].data != []
  {
    hide CifBytes, RecordBytes, IifBytes, ReadCif, Storable;
    if fs != [] {
      EntryOfLayout(fs, 0);
    }
    var getter := new G.Getter(files.cif, files.record, diff);
    shown := [];
    var more := true;
    while more
      invariant getter.Valid() && fresh(getter) && fresh(getter.chain)
      invariant getter.cif == files.cif && getter.record == files.record && getter.diffSvTime == diff
      invariant getter.pos == |shown| <= BeforeEmpty(fs)
      invariant !more ==> |shown| == BeforeEmpty(fs)
      invariant forall i :: 0 <= i < |shown| ==> shown[i] == Replayed(fs, i, diff)
      decreases BeforeEmpty(fs) - |shown|, more
    {
      if getter.pos < |fs| {
        EntryOfLayout(fs, 0);
        EntryOfLayout(fs, getter.pos);
      }
      var ret, frame := getter.NextFrame();
      if frame.Some? {
        shown := shown + [frame.value];
      } else {
        more := false;
      }
    }
  }

  /** A recording of three frames, the second of them empty: the replay ends after the first. */
  method StopsAtEmpty() returns (fs: seq<Frame>, shown: seq<G.VideoFrame>)
    ensures |fs| == 3 && fs[2].data != [] && |shown| == 1
  {
    var at := Clock(0, Time(2014, 9, 1, 0));
    fs := [Frame([1], FRAME_TYPE_I_FRAME, at), Frame([], 2, at), Frame([3], 2, at)];
    var data: seq<seq<byte>> := [[1], [], [3]];
    assert RecordBytes(fs) == RecordBytes(fs[..2]) + [3] && RecordBytes(fs[..2]) == RecordBytes(fs[..2][..1]) + [];
    assert fs[..2][..1] == fs[..1] && RecordBytes(fs[..1]) == RecordBytes(fs[..1][..0]) + [1] && fs[..1][..0] == [];
    assert fs[1..][0] == fs[1];
    shown := ReplayAll(Layout(fs), fs, (a, b) => 0);
  }
}
