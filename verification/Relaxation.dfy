/** Branch relaxation: widening the short branches that do not reach, until all do. */
module Relaxation {
  import opened OpCodes
  import opened ILCode

  /** Instruction k is a short branch whose displacement does not fit in a signed byte. */
  predicate OutOfRange(code: Code, k: nat)
    requires Exportable(code) && k < |code|
  {
    IsShort(code[k].opcode) && !(-128 <= Displacement(code, k) <= 127)
  }

  predicate Fits(code: Code)
    requires Exportable(code)
  {
    forall k :: 0 <= k < |code| ==> !OutOfRange(code, k)
  }

  function WidenOne(code: Code, k: nat): Instr
    requires Exportable(code) && k < |code|
  {
    if OutOfRange(code, k) then code[k].(opcode := LongForm(code[k].opcode)) else code[k]
  }

  /** One round: the first k instructions widened where they do not reach, the offsets still those of `code`. */
  function WidenPrefix(code: Code, k: nat): (r: Code)
    requires Exportable(code) && k <= |code|
    ensures |r| == |code|
  {
    seq(|code|, i requires 0 <= i < |code| => if i < k then WidenOne(code, i) else code[i])
  }

  /** One more instruction looked at. */
  lemma WidenStep(code: Code, k: nat)
    requires Exportable(code) && k < |code|
    ensures WidenPrefix(code, k + 1) == WidenPrefix(code, k)[k := WidenOne(code, k)]
    ensures WidenPrefix(code, k)[k] == code[k]
    ensures Exportable(WidenPrefix(code, k)) && Exportable(WidenPrefix(code, k + 1))
  {
    hide FlagsOf, Displacement;
    WidensKeepsExportable(code, WidenPrefix(code, k));
    WidensKeepsExportable(code, WidenPrefix(code, k + 1));
  }

  function Widen(code: Code): (r: Code)
    requires Exportable(code)
    ensures |r| == |code|
  {
    WidenPrefix(code, |code|)
  }

  function ShortCount(code: Code): nat {
    if code == [] then 0 else ShortCount(code[1..]) + if IsShort(code[0].opcode) then 1 else 0
  }

  /** b is a with some (possibly no) short branches replaced by their long forms. */
  predicate Widens(a: Code, b: Code) {
    && |a| == |b|
    && forall k :: 0 <= k < |a| ==>
         && a[k].operand == b[k].operand
         && (a[k].opcode == b[k].opcode || (IsShort(a[k].opcode) && b[k].opcode == LongForm(a[k].opcode)))
  }

  lemma WidensKeepsExportable(a: Code, b: Code)
    requires Exportable(a) && Widens(a, b)
    ensures Exportable(b)
  {
    forall k | 0 <= k < |b| ensures b[k].opcode < TABLE_SIZE && a[k].opcode < TABLE_SIZE {
    }
    forall k | 0 <= k < |b| ensures OperandOk(b, k) {
      assert OperandOk(a, k);
    }
  }

  lemma WidenWidens(code: Code)
    requires Exportable(code)
    ensures Widens(code, Widen(code)) && Exportable(Widen(code))
  {
    WidensKeepsExportable(code, Widen(code));
  }

  lemma {:induction false} WideningShrinksShortCount(a: Code, b: Code)
    requires Widens(a, b)
    ensures ShortCount(b) <= ShortCount(a)
    ensures a != b ==> ShortCount(b) < ShortCount(a)
  {
    if a != [] {
      assert Widens(a[1..], b[1..]) by {
        forall k | 0 <= k < |a[1..]|
          ensures a[1..][k].operand == b[1..][k].operand
          ensures a[1..][k].opcode == b[1..][k].opcode
                  || (IsShort(a[1..][k].opcode) && b[1..][k].opcode == LongForm(a[1..][k].opcode))
        {
          assert a[1..][k] == a[k + 1] && b[1..][k] == b[k + 1];
        }
      }
      WideningShrinksShortCount(a[1..], b[1..]);
      assert a == [a[0]] + a[1..] && b == [b[0]] + b[1..];
    }
  }

  /** Every round that changes anything leaves strictly fewer short branches. */
  lemma RoundProgress(code: Code)
    requires Exportable(code)
    ensures Fits(code) <==> Widen(code) == code
    ensures !Fits(code) ==> ShortCount(Widen(code)) < ShortCount(code)
  {
    WidenWidens(code);
    if Fits(code) {
      assert forall k :: 0 <= k < |code| ==> Widen(code)[k] == code[k];
    } else {
      var k :| 0 <= k < |code| && OutOfRange(code, k);
      assert Widen(code)[k].opcode == LongForm(code[k].opcode) != code[k].opcode;
      WideningShrinksShortCount(code, Widen(code));
    }
  }

  /** The fixed point the exporter's `goto again` loop reaches. */
  function Relax(code: Code): (r: Code)
    requires Exportable(code)
    ensures Exportable(r) && Widens(code, r) && Fits(r)
    decreases ShortCount(code)
  {
    WidenWidens(code);
    RoundProgress(code);
    if Fits(code) then code
    else
      var r := Relax(Widen(code));
      WidensTransitive(code, Widen(code), r);
      r
  }

  lemma WidensTransitive(a: Code, b: Code, c: Code)
    requires Widens(a, b) && Widens(b, c)
    ensures Widens(a, c)
  {
  }

  // ---- leastness

  /** Distances between two positions only grow under widening. */
  lemma {:induction false} DistancesGrow(a: Code, b: Code, i: nat, j: nat)
    requires Exportable(a) && Exportable(b) && Widens(a, b) && i <= j <= |a|
    ensures Offset(b, j) - Offset(b, i) >= Offset(a, j) - Offset(a, i) >= 0
    decreases j
  {
    hide FlagsOf, SizeOf;
    if i < j {
      DistancesGrow(a, b, i, j - 1);
      if IsShort(a[j - 1].opcode) {
        LongFormKeepsPushes(a[j - 1].opcode);
      }
    }
  }

  /** A branch that does not reach in a list does not reach in any widening that keeps it short. */
  lemma OutOfRangeStays(a: Code, b: Code, k: nat)
    requires Exportable(a) && Exportable(b) && Widens(a, b) && k < |a|
    requires OutOfRange(a, k) && IsShort(b[k].opcode)
    ensures OutOfRange(b, k)
  {
    hide FlagsOf, SizeOf, Offset;
    assert OperandOk(a, k);
    var t := a[k].operand.to;
    if k + 1 <= t {
      DistancesGrow(a, b, k + 1, t);
    } else {
      DistancesGrow(a, b, t, k + 1);
    }
  }

  /** Relaxation is least: every valid widening of the list widens the relaxed list too. */
  lemma {:induction false} RelaxIsLeast(a: Code, b: Code)
    requires Exportable(a) && Exportable(b) && Widens(a, b) && Fits(b)
    ensures Widens(Relax(a), b)
    decreases ShortCount(a)
  {
    if !Fits(a) {
      WidenWidens(a);
      RoundProgress(a);
      forall k | 0 <= k < |a|
        ensures Widen(a)[k].operand == b[k].operand
        ensures Widen(a)[k].opcode == b[k].opcode
                || (IsShort(Widen(a)[k].opcode) && b[k].opcode == LongForm(Widen(a)[k].opcode))
      {
        if OutOfRange(a, k) && IsShort(b[k].opcode) {
          OutOfRangeStays(a, b, k);
          assert false;
        }
      }
      RelaxIsLeast(Widen(a), b);
    }
  }

  /** Hence the exported body is the smallest valid one. */
  lemma RelaxIsSmallest(a: Code, b: Code)
    requires Exportable(a) && Exportable(b) && Widens(a, b) && Fits(b)
    ensures CodeSize(Relax(a)) <= CodeSize(b)
    ensures CodeSize(Relax(a)) == CodeSize(b) ==> Relax(a) == b
  {
    RelaxIsLeast(a, b);
    var r := Relax(a);
    DistancesGrow(r, b, 0, |r|);
    if r != b {
      var k :| 0 <= k < |r| && r[k] != b[k];
      DistancesGrow(r, b, 0, k);
      DistancesGrow(r, b, k + 1, |r|);
      LongFormKeepsPushes(r[k].opcode);
    }
  }
}
