/** The initial run-length code of a block: what bzlib.c writes into the block
    and what its output stage makes of it again. */
module RunLength {
  import opened Arith
  import opened Rotations

  datatype Option<+T> = None | Some(value: T)

  function Rep(c: Byte, n: nat): (r: Block)
    ensures |r| == n && forall i :: 0 <= i < n ==> r[i] == c
  {
    seq(n, _ => c)
  }

  /** A run of one byte, as add_pair_to_block receives it. */
  datatype Run = Run(ch: Byte, len: nat)

  ghost predicate ValidRun(r: Run) {
    1 <= r.len <= 255
  }

  /** Up to three copies as they are, else four copies and a count. */
  function RunBytes(r: Run): Block
    requires ValidRun(r)
  {
    if r.len < 4 then Rep(r.ch, r.len) else Rep(r.ch, 4) + [r.len - 4]
  }

  ghost predicate ValidRuns(runs: seq<Run>) {
    && (forall i :: 0 <= i < |runs| ==> ValidRun(runs[i]))
    && (forall i :: 0 <= i < |runs| - 1 ==> runs[i].len >= 4 || runs[i].ch != runs[i + 1].ch)
  }

  /** Runs as the front end makes them: as long as they can be, up to 255. */
  ghost predicate Maximal(runs: seq<Run>) {
    && ValidRuns(runs)
    && (forall i :: 0 <= i < |runs| - 1 ==> runs[i].len == 255 || runs[i].ch != runs[i + 1].ch)
  }

  /** The block bytes of a list of runs, and the data they stand for. */
  ghost function Packed(runs: seq<Run>): Block
    requires ValidRuns(runs)
  {
    if runs == [] then [] else RunBytes(runs[0]) + Packed(runs[1..])
  }

  ghost function Unpacked(runs: seq<Run>): Block {
    if runs == [] then [] else Rep(runs[0].ch, runs[0].len) + Unpacked(runs[1..])
  }

  lemma {:induction false} PackedSnoc(runs: seq<Run>, r: Run)
    requires ValidRuns(runs + [r])
    ensures ValidRuns(runs) && ValidRun(r) && Packed(runs + [r]) == Packed(runs) + RunBytes(r)
    ensures Unpacked(runs + [r]) == Unpacked(runs) + Rep(r.ch, r.len)
  {
    hide Rep, RunBytes;
    var all := runs + [r];
    assert all[|runs|] == r;
    assert forall i :: 0 <= i < |runs| ==> runs[i] == all[i];
    if runs == [] {
      assert all[1..] == [];
    } else {
      assert all[1..] == runs[1..] + [r];
      PackedSnoc(runs[1..], r);
    }
  }

  lemma FirstRunAgrees(r: seq<Run>, s: seq<Run>)
    requires Maximal(r) && Maximal(s) && r != [] && s != [] && Unpacked(r) == Unpacked(s)
    ensures r[0].len <= s[0].len && r[0].ch == s[0].ch
  {
    var data := Unpacked(s);
    assert data[0] == r[0].ch == s[0].ch;
    if r[0].len > s[0].len {
      var n := s[0].len;
      assert data[n] == r[0].ch;
      assert |s| > 1 && data[n] == Unpacked(s[1..])[0] == s[1].ch;
    }
  }

  /** The runs of given data are unique, and so are the block bytes. */
  lemma {:induction false} RunsAreUnique(r: seq<Run>, s: seq<Run>)
    requires Maximal(r) && Maximal(s) && Unpacked(r) == Unpacked(s)
    ensures r == s
  {
    if r == [] || s == [] {
      assert r == [] && s == [];
    } else {
      FirstRunAgrees(r, s);
      FirstRunAgrees(s, r);
      assert Unpacked(r)[r[0].len..] == Unpacked(r[1..]) && Unpacked(s)[s[0].len..] == Unpacked(s[1..]);
      RunsAreUnique(r[1..], s[1..]);
    }
  }

  /** The block bytes of some data: those of its maximal runs. */
  ghost predicate Squeezed(bytes: Block, data: Block) {
    exists runs :: Maximal(runs) && Packed(runs) == bytes && Unpacked(runs) == data
  }

  lemma SqueezedOnce(bytes: Block, bytes': Block, data: Block)
    requires Squeezed(bytes, data) && Squeezed(bytes', data)
    ensures bytes == bytes'
  {
    var r :| Maximal(r) && Packed(r) == bytes && Unpacked(r) == data;
    var s :| Maximal(s) && Packed(s) == bytes' && Unpacked(s) == data;
    RunsAreUnique(r, s);
  }

  /** A run of four to 255 bytes becomes four of them and a count; a shorter one
      stays as it is. */
  lemma RunFormat(c: Byte, n: nat)
    requires 1 <= n <= 255
    ensures Squeezed(if n < 4 then Rep(c, n) else [c, c, c, c, n - 4], Rep(c, n))
  {
    var runs := [Run(c, n)];
    assert runs[1..] == [];
    assert Rep(c, 4) == [c, c, c, c];
    assert Unpacked(runs) == Rep(c, n) && Packed(runs) == RunBytes(runs[0]);
  }

  // ---------- Decoding ----------

  /** The length a count byte stands for. */
  function LongRun(count: nat): nat { count + 4 }

  /** How many of the first bytes are equal, four at most. */
  function Lead(d: Block): (k: nat)
    requires d != []
    ensures 1 <= k <= 4 && k <= |d|
    ensures forall i :: 0 <= i < k ==> d[i] == d[0]
    ensures k < 4 && k < |d| ==> d[k] != d[0]
  {
    if |d| == 1 || d[1] != d[0] then 1
    else if |d| == 2 || d[2] != d[0] then 2
    else if |d| == 3 || d[3] != d[0] then 3
    else 4
  }

  /** The data a block stands for; None if a count byte is missing at its end. */
  function UnRle(d: Block): Option<Block>
    decreases |d|
  {
    if d == [] then Some([])
    else
      var k := Lead(d);
      if k < 4 then
        match UnRle(d[k..])
        case None => None
        case Some(rest) => Some(Rep(d[0], k) + rest)
      else if |d| == 4 then None
      else
        match UnRle(d[5..])
        case None => None
        case Some(rest) => Some(Rep(d[0], LongRun(d[4])) + rest)
  }

  lemma FirstByteOfPacked(runs: seq<Run>)
    requires ValidRuns(runs) && runs != []
    ensures Packed(runs) != [] && Packed(runs)[0] == runs[0].ch
  {
  }

  lemma ShortRun(r: Run, tail: Block)
    requires 1 <= r.len < 4 && (tail == [] || tail[0] != r.ch) && UnRle(tail).Some?
    ensures UnRle(RunBytes(r) + tail) == Some(Rep(r.ch, r.len) + UnRle(tail).value)
  {
    var d := RunBytes(r) + tail;
    assert Lead(d) == r.len && d[r.len..] == tail;
  }

  lemma LongerRun(r: Run, tail: Block)
    requires 4 <= r.len <= 255 && UnRle(tail).Some?
    ensures UnRle(RunBytes(r) + tail) == Some(Rep(r.ch, r.len) + UnRle(tail).value)
  {
    var d := RunBytes(r) + tail;
    assert Lead(d) == 4 && d[5..] == tail && d[4] == r.len - 4;
  }

  /** Decoding what was packed gives the data back. */
  lemma {:induction false} UnRleOfPacked(runs: seq<Run>)
    requires ValidRuns(runs)
    ensures UnRle(Packed(runs)) == Some(Unpacked(runs))
  {
    hide UnRle, RunBytes, Rep;
    if runs == [] {
      UnRleEmpty();
    } else {
      UnRleOfPacked(runs[1..]);
      if runs[0].len < 4 {
        if |runs| > 1 { FirstByteOfPacked(runs[1..]); }
        ShortRun(runs[0], Packed(runs[1..]));
      } else {
        LongerRun(runs[0], Packed(runs[1..]));
      }
    }
  }

  lemma UnRleEmpty()
    ensures UnRle([]) == Some([])
  {
  }

  // ---------- What the output stage emits ----------

  /** How many equal bytes of s the stage takes at p: four at most, none at or
      beyond n. */
  function LeadAt(s: Block, n: nat, p: nat): (k: nat)
    requires p < n < |s|
    ensures 1 <= k <= 4 && p + k <= n
  {
    if p + 1 == n || s[p + 1] != s[p] then 1
    else if p + 2 == n || s[p + 2] != s[p] then 2
    else if p + 3 == n || s[p + 3] != s[p] then 3
    else 4
  }

  /** Where the run after the one at p starts. */
  function NextAt(s: Block, n: nat, p: nat): (q: nat)
    requires p < n < |s|
    ensures p < q <= n + 1
  {
    if LeadAt(s, n, p) < 4 then p + LeadAt(s, n, p) else p + 5
  }

  /** The run at p, decoded. */
  function RunAt(s: Block, n: nat, p: nat): (r: Block)
    requires p < n && n + 1 < |s|
    ensures |r| >= 1
  {
    if LeadAt(s, n, p) < 4 then Rep(s[p], LeadAt(s, n, p)) else Rep(s[p], LongRun(s[p + 4]))
  }

  /** Everything still to be emitted when the next run starts at p. */
  function Tail(s: Block, n: nat, p: nat): Block
    requires n + 1 < |s|
    decreases n + 2 - p
  {
    if p >= n then [] else RunAt(s, n, p) + Tail(s, n, NextAt(s, n, p))
  }

  /** No count byte is missing from p on. */
  ghost predicate Complete(s: Block, n: nat, p: nat)
    requires n + 1 < |s|
    decreases n + 2 - p
  {
    if p >= n then p == n else Complete(s, n, NextAt(s, n, p))
  }

  /** The stage ends cleanly exactly on decodable blocks, and then it emits
      exactly their data. */
  lemma {:induction false} TailIsUnRle(s: Block, n: nat, p: nat)
    requires p <= n && n + 1 < |s|
    ensures Complete(s, n, p) <==> UnRle(s[p..n]).Some?
    ensures Complete(s, n, p) ==> Tail(s, n, p) == UnRle(s[p..n]).value
    decreases n - p
  {
    var d := s[p..n];
    if p < n {
      var q := NextAt(s, n, p);
      assert Lead(d) == LeadAt(s, n, p);
      if Lead(d) < 4 {
        assert d[Lead(d)..] == s[q..n];
        TailIsUnRle(s, n, q);
      } else if |d| > 4 {
        assert d[5..] == s[q..n] && d[4] == s[p + 4];
        TailIsUnRle(s, n, q);
      }
    }
  }
}
