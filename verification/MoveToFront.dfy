/** Move-to-front coding with bijective base-2 zero runs: generateMTFValues in
    compress.c, and the list-level meaning of the decoder's symbol loop. */
module MoveToFront {
  import opened Arith

  const RUNA := 0
  const RUNB := 1

  // ---------- Lists ----------

  ghost predicate Distinct(list: seq<nat>) {
    forall i, j :: 0 <= i < j < |list| ==> list[i] != list[j]
  }

  ghost predicate AllIn(column: seq<nat>, list: seq<nat>) {
    forall v :: v in column ==> v in list
  }

  function Iota(n: nat): (r: seq<nat>)
    ensures |r| == n && Distinct(r) && forall i :: 0 <= i < n ==> r[i] == i
  {
    seq(n, i => i)
  }

  function MoveFront(list: seq<nat>, k: nat): (r: seq<nat>)
    requires k < |list|
    ensures |r| == |list|
  {
    [list[k]] + list[..k] + list[k + 1..]
  }

  lemma MoveFrontFacts(list: seq<nat>, k: nat)
    requires k < |list| && Distinct(list)
    ensures Distinct(MoveFront(list, k))
    ensures forall v :: v in MoveFront(list, k) <==> v in list
  {
    var r := MoveFront(list, k);
    forall i | 0 <= i < |list| ensures list[i] in r {
      assert r[if i == k then 0 else if i < k then i + 1 else i] == list[i];
    }
  }

  function IndexOf(list: seq<nat>, v: nat): (k: nat)
    requires v in list
    ensures k < |list| && list[k] == v
  {
    if list[0] == v then 0 else 1 + IndexOf(list[1..], v)
  }

  function Repeat(v: nat, n: nat): (r: seq<nat>)
    ensures |r| == n && forall i :: 0 <= i < n ==> r[i] == v
  {
    seq(n, _ => v)
  }

  // ---------- Bijective base-2 runs ----------

  /** The digits of n in bijective base 2, least significant first:
      RUNA stands for one and RUNB for two. */
  function RunCode(n: nat): (r: seq<nat>)
    ensures |r| <= n && Pow2(|r|) <= n + 1
    ensures forall i :: 0 <= i < |r| ==> r[i] == RUNA || r[i] == RUNB
  {
    if n == 0 then [] else [(n - 1) % 2] + RunCode((n - 1) / 2)
  }

  function RunValue(digits: seq<nat>): nat {
    if digits == [] then 0 else digits[0] + 1 + 2 * RunValue(digits[1..])
  }

  lemma {:induction false} RunRoundTrip(n: nat)
    ensures RunValue(RunCode(n)) == n
  {
    if n > 0 {
      RunRoundTrip((n - 1) / 2);
    }
  }

  /** A block never makes the decoder's guard on N fire: every digit is read
      while N is still below 2 * 1024 * 1024. */
  lemma RunCodeIsShort(n: nat)
    requires n <= 900000
    ensures |RunCode(n)| <= 19
  {
    if |RunCode(n)| >= 20 {
      Pow2Mono(20, |RunCode(n)|);
      Pow2Values();
    }
  }

  // ---------- The coder as a function ----------

  /** The symbols sent for a column whose entries lie in the list, with a
      pending run of z copies of the front entry. */
  function Encode(list: seq<nat>, column: seq<nat>, z: nat): (r: seq<nat>)
    requires list != [] && Distinct(list) && AllIn(column, list)
    ensures |r| <= |column| + z
    ensures forall i :: 0 <= i < |r| ==> r[i] <= |list|
    decreases |column|
  {
    if column == [] then RunCode(z)
    else if list[0] == column[0] then Encode(list, column[1..], z + 1)
    else
      var k := IndexOf(list, column[0]);
      MoveFrontFacts(list, k);
      RunCode(z) + [k + 1] + Encode(MoveFront(list, k), column[1..], 0)
  }

  /** How many run digits a symbol string starts with. */
  function LeadingRun(v: seq<nat>): (k: nat)
    ensures k <= |v| && (k < |v| ==> v[k] > RUNB)
    ensures forall i :: 0 <= i < k ==> v[i] <= RUNB
  {
    if v == [] || v[0] > RUNB then 0 else 1 + LeadingRun(v[1..])
  }

  /** The decoder's symbol loop on a plain list. */
  function Decode(list: seq<nat>, v: seq<nat>): seq<nat>
    requires list != [] && forall i :: 0 <= i < |v| ==> v[i] <= |list|
    decreases |v|
  {
    if v == [] then []
    else if v[0] <= RUNB then
      var k := LeadingRun(v);
      Repeat(list[0], RunValue(v[..k])) + Decode(list, v[k..])
    else
      [list[v[0] - 1]] + Decode(MoveFront(list, v[0] - 1), v[1..])
  }

  lemma {:induction false} LeadingRunOf(digits: seq<nat>, rest: seq<nat>)
    requires forall i :: 0 <= i < |digits| ==> digits[i] <= RUNB
    requires rest == [] || rest[0] > RUNB
    ensures LeadingRun(digits + rest) == |digits|
  {
    if digits != [] {
      assert (digits + rest)[1..] == digits[1..] + rest;
      LeadingRunOf(digits[1..], rest);
    } else {
      assert digits + rest == rest;
    }
  }

  lemma DecodeRun(list: seq<nat>, z: nat, rest: seq<nat>)
    requires list != [] && forall i :: 0 <= i < |rest| ==> rest[i] <= |list|
    requires rest == [] || rest[0] > RUNB
    ensures forall i :: 0 <= i < |RunCode(z) + rest| ==> (RunCode(z) + rest)[i] <= |list|
    ensures Decode(list, RunCode(z) + rest) == Repeat(list[0], z) + Decode(list, rest)
  {
    hide MoveFront, LeadingRun, RunValue, Repeat;
    var v := RunCode(z) + rest;
    if z == 0 {
      assert v == rest;
      assert Repeat(list[0], 0) + Decode(list, rest) == Decode(list, rest);
    } else {
      LeadingRunOf(RunCode(z), rest);
      RunRoundTrip(z);
      assert v[..|RunCode(z)|] == RunCode(z) && v[|RunCode(z)|..] == rest;
    }
  }

  lemma DecodeMove(list: seq<nat>, v: seq<nat>)
    requires v != [] && v[0] > RUNB && forall i :: 0 <= i < |v| ==> v[i] <= |list|
    ensures Decode(list, v) == [list[v[0] - 1]] + Decode(MoveFront(list, v[0] - 1), v[1..])
  {
  }

  /** The decoder recovers the pending run and the column. */
  lemma {:induction false} RoundTrip(list: seq<nat>, column: seq<nat>, z: nat)
    requires list != [] && Distinct(list) && AllIn(column, list)
    ensures Decode(list, Encode(list, column, z)) == Repeat(list[0], z) + column
    decreases |column|
  {
    hide Decode, Distinct;
    if column == [] {
      DecodeRun(list, z, []);
      DecodeNothing(list);
      assert RunCode(z) + [] == RunCode(z);
    } else if list[0] == column[0] {
      RoundTrip(list, column[1..], z + 1);
      assert Repeat(list[0], z + 1) == Repeat(list[0], z) + [column[0]];
      assert column == [column[0]] + column[1..];
    } else {
      MoveFrontFacts(list, IndexOf(list, column[0]));
      RoundTrip(MoveFront(list, IndexOf(list, column[0])), column[1..], 0);
      RoundTripMove(list, column, z);
    }
  }

  lemma RoundTripMove(list: seq<nat>, column: seq<nat>, z: nat)
    requires list != [] && Distinct(list) && AllIn(column, list)
    requires column != [] && list[0] != column[0]
    requires var next := MoveFront(list, IndexOf(list, column[0]));
             Distinct(next) && AllIn(column, next)
             && Decode(next, Encode(next, column[1..], 0)) == Repeat(next[0], 0) + column[1..]
    ensures Decode(list, Encode(list, column, z)) == Repeat(list[0], z) + column
  {
    hide Decode, Distinct, Encode, RunCode, IndexOf, MoveFront, Repeat;
    var k := IndexOf(list, column[0]);
    var coded := Encode(MoveFront(list, k), column[1..], 0);
    var v := [k + 1] + coded;
    assert v[1..] == coded;
    EncodeMove(list, column, z);
    DecodeMove(list, v);
    DecodeRun(list, z, v);
    NoRun(list[k], column);
  }

  lemma NoRun(v: nat, column: seq<nat>)
    requires column != [] && column[0] == v
    ensures forall w :: [v] + (Repeat(w, 0) + column[1..]) == column
  {
  }

  lemma EncodeMove(list: seq<nat>, column: seq<nat>, z: nat)
    requires list != [] && Distinct(list) && AllIn(column, list)
    requires column != [] && list[0] != column[0]
    ensures var k := IndexOf(list, column[0]);
            && k >= 1 && Distinct(MoveFront(list, k)) && AllIn(column, MoveFront(list, k))
            && Encode(list, column, z) == RunCode(z) + ([k + 1] + Encode(MoveFront(list, k), column[1..], 0))
  {
    hide Encode, MoveFront, IndexOf, RunCode, Distinct;
    var k := IndexOf(list, column[0]);
    MoveFrontFacts(list, k);
    assert AllIn(column, MoveFront(list, k));
    EncodeUnfold(list, column, z, k);
    Regroup(RunCode(z), k + 1, Encode(MoveFront(list, k), column[1..], 0));
  }

  lemma EncodeUnfold(list: seq<nat>, column: seq<nat>, z: nat, k: nat)
    requires list != [] && Distinct(list) && AllIn(column, list)
    requires column != [] && list[0] != column[0] && k == IndexOf(list, column[0])
    requires Distinct(MoveFront(list, k)) && AllIn(column, MoveFront(list, k))
    ensures AllIn(column[1..], MoveFront(list, k))
    ensures Encode(list, column, z) == RunCode(z) + [k + 1] + Encode(MoveFront(list, k), column[1..], 0)
  {
    hide MoveFront, IndexOf, RunCode, Distinct, AllIn;
    RestIn(column, MoveFront(list, k));
  }

  lemma RestIn(column: seq<nat>, list: seq<nat>)
    requires column != [] && AllIn(column, list)
    ensures AllIn(column[1..], list)
  {
  }

  lemma Regroup(a: seq<nat>, v: nat, b: seq<nat>)
    ensures a + [v] + b == a + ([v] + b)
  {
  }

  lemma DecodeNothing(list: seq<nat>)
    requires list != []
    ensures Decode(list, []) == []
  {
  }
}
