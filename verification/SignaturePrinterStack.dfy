/** The stack of the iterative printer: when it is empty, at every iteration over a signature. */
module SignaturePrinterStack {
  import opened Bytes
  import opened SignatureTrees
  import opened SignaturePrinter
  import opened SignaturePrinterLaws

  /** The state after n iterations; at the end of the bytes the loop stands still. */
  function After(data: seq<byte>, lk: Lookup, s: PState, n: nat): (r: PResult)
    ensures r.Go? ==> r.s.i >= s.i
    decreases n
  {
    if n == 0 || s.i >= |data| then Go(s)
    else
      match Step(data, lk, s)
      case Failed => Failed
      case Go(t) => After(data, lk, t, n - 1)
  }

  lemma {:induction false} AfterCompose(data: seq<byte>, lk: Lookup, s: PState, m: nat, n: nat)
    requires After(data, lk, s, m).Go?
    ensures After(data, lk, s, m + n) == After(data, lk, After(data, lk, s, m).s, n)
    decreases m
  {
    hide Step;
    if m > 0 && s.i < |data| {
      AfterCompose(data, lk, Step(data, lk, s).s, m - 1, n);
    }
  }

  lemma AfterOne(data: seq<byte>, lk: Lookup, s: PState)
    requires s.i < |data|
    ensures After(data, lk, s, 1) == Step(data, lk, s)
  {
    hide Step;
  }

  /** How many array elements a type starts with. */
  function ArrayDepth(t: Type): (d: nat)
    ensures t.SzArray? <==> d > 0
  {
    if t.SzArray? then 1 + ArrayDepth(t.item) else 0
  }

  /** Where a type starts, or all of them end. */
  predicate AtBoundary(ts: seq<Type>, off: int)
    requires TypesOk(ts)
  {
    off == 0 || (ts != [] && off >= |Encode(ts[0])| && AtBoundary(ts[1..], off - |Encode(ts[0])|))
  }

  /** At a boundary, or right behind the array elements a type starts with. */
  predicate AtCore(ts: seq<Type>, off: int)
    requires TypesOk(ts)
  {
    || off == 0
    || (ts != [] && (off == ArrayDepth(ts[0]) || (off >= |Encode(ts[0])| && AtCore(ts[1..], off - |Encode(ts[0])|))))
  }

  /** A state in the middle of a type: the stack is empty only behind its array elements, with brackets pending. */
  predicate Inside(s: PState, t: Type, x: PState)
    requires TypeOk(t)
  {
    && s.i < x.i < s.i + |Encode(t)|
    && (x.stack == [] <==> s.stack == [] && x.i == s.i + ArrayDepth(t))
    && (x.stack == [] ==> x.app != "")
  }

  // ---- arrays

  lemma {:induction false} ArraysAre(data: seq<byte>, i: nat, t: Type)
    requires i <= |data| && TypeOk(t) && t.SzArray? && Encode(t) <= data[i..]
    ensures i < |data| && data[i] == ELEMENT_SZARRAY && MoreArrays(data, i) == ArrayDepth(t) - 1
    ensures ArrayDepth(t) < |Encode(t)| && i + ArrayDepth(t) <= |data|
    ensures TypeOk(Core(t)) && Encode(Core(t)) <= data[i + ArrayDepth(t)..]
    ensures |Encode(t)| == ArrayDepth(t) + |Encode(Core(t))|
    decreases t
  {
    hide NumBytes, HeadBytes, EncodeAll;
    ArrayBytes(data, i, t);
    if t.item.SzArray? {
      ArraysAre(data, i + 1, t.item);
    } else {
      NotArrayByte(t.item);
      assert data[i + 1] == data[i + 1..][0] == Encode(t.item)[0];
    }
  }

  lemma NotArrayByte(t: Type)
    requires TypeOk(t) && !t.SzArray?
    ensures Encode(t)[0] != ELEMENT_SZARRAY
  {
    hide NumBytes, HeadBytes, EncodeAll;
  }

  lemma {:induction false} SkewedCore(t: Type, lk: Lookup, app: string)
    ensures Skewed(t, lk, app) == Skewed(Core(t), lk, app + Brackets(ArrayDepth(t)))
    decreases t
  {
    if t.SzArray? {
      SkewedCore(t.item, lk, app + "[]");
      assert app + "[]" + Brackets(ArrayDepth(t.item)) == app + Brackets(ArrayDepth(t));
    } else {
      assert app + "" == app;
    }
  }

  lemma {:induction false} CoreKept(t: Type, lk: Lookup)
    requires Printable(t, lk)
    ensures Printable(Core(t), lk) && !Core(t).SzArray?
    decreases t
  {
    if t.SzArray? {
      CoreKept(t.item, lk);
    }
  }

  // ---- one type at a time

  /** What the iterations between a state and the delivery of a type's name look like. */
  ghost predicate TypeTakes(data: seq<byte>, lk: Lookup, s: PState, t: Type, n: nat)
    requires TypeOk(t)
  {
    && n > 0
    && After(data, lk, s, n) == Deliver(s, s.i + |Encode(t)| - 1, Skewed(t, lk, s.app))
    && forall m: nat :: 0 < m < n ==> After(data, lk, s, m).Go? && Inside(s, t, After(data, lk, s, m).s)
  }

  /** The iterations over one type: in the middle of it until its name is delivered. */
  lemma {:induction false} TypeStates(data: seq<byte>, lk: Lookup, s: PState, t: Type) returns (n: nat)
    requires s.i <= |data| && TypeOk(t) && Printable(t, lk) && Encode(t) <= data[s.i..]
    ensures TypeTakes(data, lk, s, t, n)
    decreases |Encode(t)|, 1
  {
    hide Step, After, Deliver, TypeTakes, Encode;
    if t.SzArray? {
      var d := ArrayDepth(t);
      ArraysAre(data, s.i, t);
      CoreKept(t, lk);
      var s1 := ArraysStep(data, lk, s, t);
      var k := CoreStates(data, lk, s1, Core(t));
      n := 1 + k;
      ArrayTakes(data, lk, s, t, s1, k);
    } else {
      n := CoreStates(data, lk, s, t);
    }
  }

  /** One iteration takes all array elements at the front. */
  lemma ArraysStep(data: seq<byte>, lk: Lookup, s: PState, t: Type) returns (s1: PState)
    requires s.i <= |data| && TypeOk(t) && t.SzArray? && Encode(t) <= data[s.i..]
    ensures s1 == s.(i := s.i + ArrayDepth(t), app := s.app + Brackets(ArrayDepth(t)))
    ensures s.i < |data| && Step(data, lk, s) == Go(s1)
  {
    hide Deliver, OpenGeneric, Encode;
    ArraysAre(data, s.i, t);
    s1 := s.(i := s.i + ArrayDepth(t), app := s.app + Brackets(ArrayDepth(t)));
  }

  lemma ArrayTakes(data: seq<byte>, lk: Lookup, s: PState, t: Type, s1: PState, k: nat)
    requires s.i < |data| && TypeOk(t) && t.SzArray? && TypeOk(Core(t)) && !Core(t).SzArray?
    requires |Encode(t)| == ArrayDepth(t) + |Encode(Core(t))|
    requires s1 == s.(i := s.i + ArrayDepth(t), app := s.app + Brackets(ArrayDepth(t)))
    requires Step(data, lk, s) == Go(s1) && TypeTakes(data, lk, s1, Core(t), k)
    ensures TypeTakes(data, lk, s, t, 1 + k)
  {
    hide Step, After, Encode, Complete, Settle, Skewed, Core, Inside, ArrayDepth;
    AfterOne(data, lk, s);
    AfterCompose(data, lk, s, 1, k);
    SkewedCore(t, lk, s.app);
    forall m: nat | 0 < m < 1 + k ensures After(data, lk, s, m).Go? && Inside(s, t, After(data, lk, s, m).s) {
      AfterCompose(data, lk, s, 1, m - 1);
      if m > 1 {
        InsideCore(s, t, s1, After(data, lk, s1, m - 1).s);
      } else {
        AfterNone(data, lk, s1);
        BehindArrays(s, t, s1);
      }
    }
  }

  /** A state in the middle of what an array is an array of is in the middle of the array. */
  lemma InsideCore(s: PState, t: Type, s1: PState, x: PState)
    requires TypeOk(t) && t.SzArray? && TypeOk(Core(t)) && !Core(t).SzArray?
    requires |Encode(t)| == ArrayDepth(t) + |Encode(Core(t))|
    requires s1 == s.(i := s.i + ArrayDepth(t), app := s.app + Brackets(ArrayDepth(t)))
    requires Inside(s1, Core(t), x)
    ensures Inside(s, t, x)
  {
    hide Encode, Core;
  }

  lemma BehindArrays(s: PState, t: Type, s1: PState)
    requires TypeOk(t) && t.SzArray? && TypeOk(Core(t))
    requires |Encode(t)| == ArrayDepth(t) + |Encode(Core(t))|
    requires s1 == s.(i := s.i + ArrayDepth(t), app := s.app + Brackets(ArrayDepth(t)))
    ensures Inside(s, t, s1)
  {
    hide Encode, Core;
  }

  lemma AfterNone(data: seq<byte>, lk: Lookup, s: PState)
    ensures After(data, lk, s, 0) == Go(s)
  {
  }

  /** A type that is no array. */
  lemma {:induction false} CoreStates(data: seq<byte>, lk: Lookup, s: PState, t: Type) returns (n: nat)
    requires s.i <= |data| && TypeOk(t) && Printable(t, lk) && Encode(t) <= data[s.i..] && !t.SzArray?
    ensures TypeTakes(data, lk, s, t, n)
    decreases |Encode(t)|, 0
  {
    hide Step, After, Deliver, Encode, Decremented;
    if t.Generic? {
      ArgumentBytes(data, s.i, t);
      GenericStep(data, lk, s, t);
      var d := Decremented(s.stack);
      var s1 := Step(data, lk, s).s;
      var k := ArgStates(data, lk, s1, t.args, d);
      n := 1 + k;
      GenericTakes(data, lk, s, t, s1, k);
    } else {
      LeafStep(data, lk, s, t);
      AfterOne(data, lk, s);
      n := 1;
    }
  }

  lemma GenericTakes(data: seq<byte>, lk: Lookup, s: PState, t: Type, s1: PState, k: nat)
    requires s.i < |data| && TypeOk(t) && t.Generic? && t.args != []
    requires var h := |HeadBytes(Head(t.isValue, t.token, t.count))|;
             && |Encode(t)| == 1 + h + |EncodeAll(t.args)|
             && s1 == s.(i := s.i + 1 + h, stack := Decremented(s.stack) + [|t.args|],
                         cur := s.cur + lk.bareName(t.token.value) + "<")
    requires Step(data, lk, s) == Go(s1) && ArgsTake(data, lk, s1, t.args, Decremented(s.stack), k)
    ensures TypeTakes(data, lk, s, t, 1 + k)
  {
    hide Step, After, Deliver, Encode, EncodeAll, Decremented, SkewedArgs, Unwind, Comma, Settle, NumBytes;
    AfterOne(data, lk, s);
    AfterCompose(data, lk, s, 1, k);
    var d := Decremented(s.stack);
    var name, args, tail := lk.bareName(t.token.value) + "<", SkewedArgs(t.args, lk, s.app), Comma(d) + Unwind(d).1;
    assert s1.cur == s.cur + name;
    assert s1.cur + args + (">" + tail) == s.cur + (name + args + ">") + tail;
    DeliverGeneric(s, s.i + |Encode(t)| - 1, name + args + ">");
    forall m: nat | 0 < m < 1 + k ensures After(data, lk, s, m).Go? && Inside(s, t, After(data, lk, s, m).s) {
      AfterCompose(data, lk, s, 1, m - 1);
    }
  }

  /** The iterations over the arguments of a generic: its level stays on the stack until the last is delivered. */
  ghost predicate ArgsTake(data: seq<byte>, lk: Lookup, s: PState, ts: seq<Type>, d: seq<int>, n: nat)
    requires TypesOk(ts) && ts != []
  {
    && n > 0
    && After(data, lk, s, n)
       == Settle(s.names, s.count, s.i + |EncodeAll(ts)| - 1, Unwind(d).0,
                 s.cur + SkewedArgs(ts, lk, s.app) + (">" + (Comma(d) + Unwind(d).1)))
    && forall m: nat :: m < n ==> After(data, lk, s, m).Go? && Among(s, ts, After(data, lk, s, m).s)
  }

  predicate Among(s: PState, ts: seq<Type>, x: PState)
    requires TypesOk(ts)
  {
    s.i <= x.i < s.i + |EncodeAll(ts)| && x.stack != []
  }

  lemma {:induction false} ArgStates(data: seq<byte>, lk: Lookup, s: PState, ts: seq<Type>,
    d: seq<int>) returns (n: nat)
    requires s.i <= |data| && TypesOk(ts) && AllPrintable(ts, lk) && EncodeAll(ts) <= data[s.i..]
    requires ts != [] && s.stack == d + [|ts|]
    ensures ArgsTake(data, lk, s, ts, d, n)
    decreases |EncodeAll(ts)|, 2
  {
    hide Step, After, Complete, Encode, Unwind, Comma, Skewed, TypeTakes, ArgsTake;
    var head, text := Encode(ts[0]), Skewed(ts[0], lk, s.app);
    HeadTail(data, s.i, ts);
    var k := TypeStates(data, lk, s, ts[0]);
    if |ts| == 1 {
      n := k;
      LastArgTakes(data, lk, s, ts, d, k);
    } else {
      CountsOff(d, |ts|);
      var s2 := PState(s.i + |head|, d + [|ts| - 1], "", s.cur + text + ", ", s.names, s.count);
      assert Deliver(s, s.i + |head| - 1, text) == Go(s2);
      var rest := ArgStates(data, lk, s2, ts[1..], d);
      n := k + rest;
      MoreArgsTake(data, lk, s, ts, d, k, s2, rest);
    }
  }

  lemma LastArgTakes(data: seq<byte>, lk: Lookup, s: PState, ts: seq<Type>, d: seq<int>, k: nat)
    requires TypesOk(ts) && |ts| == 1 && s.stack == d + [1] && TypeTakes(data, lk, s, ts[0], k)
    ensures ArgsTake(data, lk, s, ts, d, k)
  {
    hide Step, After, Complete, Encode, Unwind, Comma, Skewed;
    var head, text := Encode(ts[0]), Skewed(ts[0], lk, s.app);
    ClosesOff(d);
    assert ts[1..] == [] && EncodeAll(ts) == head + EncodeAll([]);
    assert SkewedArgs(ts, lk, s.app) == text by { assert text + "" + "" == text; }
    AfterNone(data, lk, s);
  }

  lemma MoreArgsTake(data: seq<byte>, lk: Lookup, s: PState, ts: seq<Type>, d: seq<int>, k: nat, s2: PState, rest: nat)
    requires TypesOk(ts) && |ts| > 1 && s.stack == d + [|ts|] && TypeTakes(data, lk, s, ts[0], k)
    requires s2 == PState(s.i + |Encode(ts[0])|, d + [|ts| - 1], "", s.cur + Skewed(ts[0], lk, s.app) + ", ",
                          s.names, s.count)
    requires Deliver(s, s.i + |Encode(ts[0])| - 1, Skewed(ts[0], lk, s.app)) == Go(s2)
    requires ArgsTake(data, lk, s2, ts[1..], d, rest)
    ensures ArgsTake(data, lk, s, ts, d, k + rest)
  {
    hide Step, After, Deliver, Encode, Unwind, Comma, Skewed, Settle;
    var text, n := Skewed(ts[0], lk, s.app), k + rest;
    AfterCompose(data, lk, s, k, rest);
    var args, tail := SkewedArgs(ts[1..], lk, ""), ">" + (Comma(d) + Unwind(d).1);
    assert s2.cur + args + tail == s.cur + (text + ", " + args) + tail;
    assert |EncodeAll(ts)| == |Encode(ts[0])| + |EncodeAll(ts[1..])|;
    forall m: nat | m < n ensures After(data, lk, s, m).Go? && Among(s, ts, After(data, lk, s, m).s) {
      if m >= k {
        AfterCompose(data, lk, s, k, m - k);
        assert Among(s2, ts[1..], After(data, lk, s2, m - k).s);
      } else if m == 0 {
        AfterNone(data, lk, s);
      }
    }
  }

  // ---- whole signatures

  /** A state over the types `ts`, the first of which starts at `base`. */
  ghost predicate StackFits(ts: seq<Type>, base: nat, x: PState)
    requires TypesOk(ts)
  {
    && (x.stack == [] <==> AtCore(ts, x.i - base))
    && (x.stack == [] && x.app == "" <==> AtBoundary(ts, x.i - base))
  }

  lemma {:induction false} StatesFit(data: seq<byte>, lk: Lookup, s: PState, ts: seq<Type>, n: nat)
    requires s.stack == [] && s.app == "" && s.cur == "" && s.count + |ts| == |s.names| && s.i <= |data|
    requires TypesOk(ts) && AllPrintable(ts, lk) && EncodeAll(ts) == data[s.i..]
    ensures After(data, lk, s, n).Go? && StackFits(ts, s.i, After(data, lk, s, n).s)
    decreases |ts|
  {
    hide Step, After, Deliver, Encode, Skewed, StackFits, TypeTakes;
    if n == 0 || ts == [] {
      StandsStill(data, lk, s, ts, n);
    } else {
      HeadTail(data, s.i, ts);
      var k := TypeStates(data, lk, s, ts[0]);
      if n < k {
        InsideFits(data, lk, s, ts, n, k);
      } else {
        var e, text := |Encode(ts[0])|, Skewed(ts[0], lk, "");
        DeliverAtBoundary(s, s.i + e - 1, text);
        var s2 := PState(s.i + e, [], "", "", s.names[s.count := text], s.count + 1);
        assert After(data, lk, s, k) == Go(s2) by { TypeEnds(data, lk, s, ts[0], k); }
        assert EncodeAll(ts[1..]) == data[s2.i..] by {
          assert EncodeAll(ts)[e..] == EncodeAll(ts[1..]);
          assert data[s.i..][e..] == data[s.i + e..];
        }
        AfterCompose(data, lk, s, k, n - k);
        StatesFit(data, lk, s2, ts[1..], n - k);
        FitsFurther(ts, s.i, After(data, lk, s, n).s);
      }
    }
  }

  lemma StandsStill(data: seq<byte>, lk: Lookup, s: PState, ts: seq<Type>, n: nat)
    requires s.stack == [] && s.app == "" && s.i <= |data| && TypesOk(ts)
    requires n == 0 || (ts == [] && data[s.i..] == [])
    ensures After(data, lk, s, n) == Go(s) && StackFits(ts, s.i, s)
  {
    hide Step;
    assert ts == [] && n > 0 ==> |data[s.i..]| == |data| - s.i;
  }

  lemma TypeEnds(data: seq<byte>, lk: Lookup, s: PState, t: Type, k: nat)
    requires TypeOk(t) && TypeTakes(data, lk, s, t, k)
    ensures After(data, lk, s, k) == Deliver(s, s.i + |Encode(t)| - 1, Skewed(t, lk, s.app))
  {
    hide After, Deliver;
  }

  lemma InsideFits(data: seq<byte>, lk: Lookup, s: PState, ts: seq<Type>, n: nat, k: nat)
    requires TypesOk(ts) && ts != [] && s.stack == [] && 0 < n < k && TypeTakes(data, lk, s, ts[0], k)
    ensures After(data, lk, s, n).Go? && StackFits(ts, s.i, After(data, lk, s, n).s)
  {
    hide After, Deliver, Encode, Skewed;
    var x := After(data, lk, s, n).s;
    assert Inside(s, ts[0], x);
  }

  /** What holds over the types from the second on holds over all of them. */
  lemma FitsFurther(ts: seq<Type>, base: nat, x: PState)
    requires TypesOk(ts) && ts != [] && x.i >= base + |Encode(ts[0])|
    requires StackFits(ts[1..], base + |Encode(ts[0])|, x)
    ensures StackFits(ts, base, x)
  {
    hide Encode;
    DepthBelow(ts[0]);
  }

  lemma {:induction false} DepthBelow(t: Type)
    requires TypeOk(t)
    ensures ArrayDepth(t) < |Encode(t)|
    decreases t
  {
    hide NumBytes, HeadBytes, EncodeAll;
    if t.SzArray? {
      DepthBelow(t.item);
    }
  }

  /** Where the loop starts on a signature. */
  function TypesAt(data: seq<byte>): nat {
    StartState(data).i
  }

  /**
   At every iteration over a signature the stack of outstanding arguments is empty exactly where a type starts (or
   all have ended) or right behind the array elements at its start; it is empty with no brackets pending exactly at
   the type boundaries.
   */
  lemma StackEmptyIff(data: seq<byte>, lk: Lookup, ts: seq<Type>, n: nat)
    requires IsSignature(data, lk, ts)
    ensures After(data, lk, StartState(data), n).Go? && TypesOk(ts)
    ensures var x := After(data, lk, StartState(data), n).s;
            && (x.stack == [] <==> AtCore(ts, x.i - TypesAt(data)))
            && (x.stack == [] && x.app == "" <==> AtBoundary(ts, x.i - TypesAt(data)))
  {
    hide After, EncodeAll, AtCore, AtBoundary;
    StatesFit(data, lk, StartState(data), ts, n);
  }

  predicate AnyArray(ts: seq<Type>) {
    ts != [] && (ts[0].SzArray? || AnyArray(ts[1..]))
  }

  lemma {:induction false} CoreIsBoundary(ts: seq<Type>, off: int)
    requires TypesOk(ts) && !AnyArray(ts)
    ensures AtCore(ts, off) <==> AtBoundary(ts, off)
    decreases |ts|
  {
    hide Encode;
    if ts != [] {
      CoreIsBoundary(ts[1..], off - |Encode(ts[0])|);
    }
  }

  /** Behind the elements of an array at a position of its own, the stack is empty in the middle of a type. */
  lemma {:induction false} EmptyInside(data: seq<byte>, lk: Lookup, s: PState, ts: seq<Type>) returns (n: nat)
    requires s.stack == [] && s.app == "" && s.cur == "" && s.count + |ts| == |s.names| && s.i <= |data|
    requires TypesOk(ts) && AllPrintable(ts, lk) && EncodeAll(ts) == data[s.i..] && AnyArray(ts)
    ensures After(data, lk, s, n).Go?
    ensures var x := After(data, lk, s, n).s; x.stack == [] && x.i > s.i && !AtBoundary(ts, x.i - s.i)
    decreases |ts|
  {
    hide Step, After, Deliver, Encode, Skewed, TypeTakes;
    HeadTail(data, s.i, ts);
    if ts[0].SzArray? {
      n := 1;
      var s1 := ArraysStep(data, lk, s, ts[0]);
      AfterOne(data, lk, s);
      DepthBelow(ts[0]);
    } else {
      var k := TypeStates(data, lk, s, ts[0]);
      var e, text := |Encode(ts[0])|, Skewed(ts[0], lk, "");
      DeliverAtBoundary(s, s.i + e - 1, text);
      var s2 := PState(s.i + e, [], "", "", s.names[s.count := text], s.count + 1);
      assert After(data, lk, s, k) == Go(s2) by { TypeEnds(data, lk, s, ts[0], k); }
      assert EncodeAll(ts[1..]) == data[s2.i..] by {
        assert EncodeAll(ts)[e..] == EncodeAll(ts[1..]);
        assert data[s.i..][e..] == data[s.i + e..];
      }
      var m := EmptyInside(data, lk, s2, ts[1..]);
      AfterCompose(data, lk, s, k, m);
      n := k + m;
    }
  }

  /** The stack is empty exactly at type boundaries. */
  ghost predicate EmptyAtBoundaries(data: seq<byte>, lk: Lookup, ts: seq<Type>)
    requires TypesOk(ts)
  {
    forall n: nat :: EmptyAtBoundary(data, lk, ts, After(data, lk, StartState(data), n))
  }

  predicate EmptyAtBoundary(data: seq<byte>, lk: Lookup, ts: seq<Type>, r: PResult)
    requires TypesOk(ts)
  {
    r.Go? && (r.s.stack == [] <==> AtBoundary(ts, r.s.i - TypesAt(data)))
  }

  /** Over a whole signature, the stack is empty exactly at type boundaries if and only if no position is an array. */
  lemma EmptyAtBoundariesIff(data: seq<byte>, lk: Lookup, ts: seq<Type>)
    requires IsSignature(data, lk, ts)
    ensures TypesOk(ts) && (EmptyAtBoundaries(data, lk, ts) <==> !AnyArray(ts))
  {
    hide After, EncodeAll, AtCore, AtBoundary;
    if AnyArray(ts) {
      var n := EmptyInside(data, lk, StartState(data), ts);
      assert !EmptyAtBoundary(data, lk, ts, After(data, lk, StartState(data), n));
    } else {
      forall n: nat ensures EmptyAtBoundary(data, lk, ts, After(data, lk, StartState(data), n)) {
        StackEmptyIff(data, lk, ts, n);
        CoreIsBoundary(ts, After(data, lk, StartState(data), n).s.i - TypesAt(data));
      }
    }
  }
}
