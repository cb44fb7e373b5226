/** The token bucket's only state is `zeroTime`, the instant at which it was last empty.
    Times and token counts are exact reals. */
module TokenBuckets {
  import opened Options

  function Min(a: real, b: real): real { if b < a then b else a }
  function Max(a: real, b: real): real { if a < b then b else a }

  lemma DivTimes(x: real, r: real)
    requires r > 0.0
    ensures (x / r) * r == x
  {
  }

  lemma DivSub(x: real, y: real, r: real)
    requires r > 0.0
    ensures (x - y) / r == x / r - y / r
  {
    DivTimes(x, r);
    DivTimes(y, r);
    assert (x / r - y / r) * r == (x / r) * r - (y / r) * r;
  }

  lemma Distribute(x: real, y: real, r: real)
    ensures (x + y) * r == x * r + y * r
  {
  }

  lemma TimesMonotone(x: real, y: real, r: real)
    requires r > 0.0
    ensures x <= y <==> x * r <= y * r
  {
    if x < y {
      assert (y - x) * r > 0.0;
    } else if y < x {
      assert (x - y) * r > 0.0;
    }
  }

  /** Generation rate and burst size; both have to be positive. */
  datatype AnyLimits = Limits(rate: real, burst: real)
  type Limits = l: AnyLimits | l.rate > 0.0 && l.burst > 0.0 witness Limits(1.0, 1.0)

  /** Tokens in the bucket at `now`; negative while tokens are owed. */
  function Balance(l: Limits, zero: real, now: real): real {
    Min((now - zero) * l.rate, l.burst)
  }

  /** Where every granting operation moves the zero time. */
  function GrantTo(l: Limits, zero: real, now: real, granted: real): real {
    Max(zero, now - l.burst / l.rate) + granted / l.rate
  }

  // ---------------------------------------------------------------- operations as functions

  datatype Op =
    | Consume(n: real)
    | Drain(n: real)
    | Borrow(n: real)
    | Return(n: real)
    | Available

  datatype Answer =
    | Granted(ok: bool)
    | Drained(tokens: real)
    | Reserved(wait: Option<real>)
    | Returned
    | Holding(tokens: real)

  /** The effect of one operation at `now` on the zero time. */
  function Exec(l: Limits, zero: real, op: Op, now: real): (r: (real, Answer)) {
    var held := Balance(l, zero, now);
    match op
    case Consume(n) =>
      if now <= zero || held < n then (zero, Granted(false)) else (GrantTo(l, zero, now, n), Granted(true))
    case Drain(n) =>
      if now <= zero then (zero, Drained(0.0))
      else (GrantTo(l, zero, now, Min(n, held)), Drained(Min(n, held)))
    case Borrow(n) =>
      if l.burst < n then (zero, Reserved(None))
      else if n <= 0.0 then (zero, Reserved(Some(0.0)))
      else var z := GrantTo(l, zero, now, n); (z, Reserved(Some(Max(0.0, z - now))))
    case Return(n) => (zero - n / l.rate, Returned)
    case Available => (zero, Holding(if now <= zero then 0.0 else held))
  }

  // ---------------------------------------------------------------- the class

  datatype Callback = TakeAll(n: real) | TakeSome(n: real)

  /** What the callback takes from `tokens`, or None when it refuses. */
  function Take(cb: Callback, tokens: real): Option<real> {
    match cb
    case TakeAll(n) => if tokens < n then None else Some(n)
    case TakeSome(n) => Some(if tokens < n then tokens else n)
  }

  lemma GrantMovesZero(l: Limits, zero: real, now: real, taken: real)
    ensures now - (Balance(l, zero, now) - taken) / l.rate == GrantTo(l, zero, now, taken)
  {
    var elapsed := (now - zero) * l.rate;
    assert elapsed / l.rate == now - zero;
    DivTimes(l.burst, l.rate);
    TimesMonotone(l.burst / l.rate, now - zero, l.rate);
    DivSub(Balance(l, zero, now), taken, l.rate);
  }

  class DynamicTokenBucket {
    var zeroTime: real

    constructor (zeroTime: real)
      ensures this.zeroTime == zeroTime
    {
      this.zeroTime := zeroTime;
    }

    method Reset(zeroTime: real)
      modifies this
      ensures this.zeroTime == zeroTime
    {
      this.zeroTime := zeroTime;
    }

    /** A weak compare-exchange; `spurious` says that this attempt fails for no reason. */
    method CompareExchange(expected: real, desired: real, spurious: bool) returns (ok: bool, seen: real)
      modifies this
      ensures ok <==> old(zeroTime) == expected && !spurious
      ensures zeroTime == if ok then desired else old(zeroTime)
      ensures seen == if ok then expected else old(zeroTime)
    {
      ok, seen := zeroTime == expected && !spurious, expected;
      if ok {
        zeroTime := desired;
      } else {
        seen := zeroTime;
      }
    }

    /** The compare-exchange loop; its first `spurious` attempts fail. */
    method ConsumeImpl(l: Limits, now: real, cb: Callback, spurious: nat) returns (taken: Option<real>)
      modifies this
      ensures taken == Take(cb, Balance(l, old(zeroTime), now))
      ensures zeroTime == if taken.Some? then GrantTo(l, old(zeroTime), now, taken.value) else old(zeroTime)
    {
      var zeroTimeOld := zeroTime;
      var left := spurious;
      while true
        invariant zeroTime == zeroTimeOld == old(zeroTime)
        decreases left
      {
        var zeroTimeNew;
        taken, zeroTimeNew := Desired(l, now, cb, zeroTimeOld);
        if taken.None? {
          return;
        }
        var ok;
        ok, zeroTimeOld := CompareExchange(zeroTimeOld, zeroTimeNew, left > 0);
        if ok {
          return;
        }
        left := left - 1;
      }
    }

    /** What the callback takes, and the zero time to store when it does. */
    method Desired(l: Limits, now: real, cb: Callback, zeroTimeOld: real) returns (taken: Option<real>, zeroTimeNew: real)
      ensures taken == Take(cb, Balance(l, zeroTimeOld, now))
      ensures taken.Some? ==> zeroTimeNew == GrantTo(l, zeroTimeOld, now, taken.value)
    {
      var tokens := Balance(l, zeroTimeOld, now);
      taken, zeroTimeNew := Take(cb, tokens), zeroTimeOld;
      if taken.Some? {
        GrantMovesZero(l, zeroTimeOld, now, taken.value);
        tokens := tokens - taken.value;
        zeroTimeNew := now - tokens / l.rate;
      }
    }

    method ReturnTokensImpl(l: Limits, tokenCount: real, spurious: nat) returns (zeroTimeNew: real)
      modifies this
      ensures zeroTime == zeroTimeNew == old(zeroTime) - tokenCount / l.rate
    {
      var zeroTimeOld := zeroTime;
      var left := spurious;
      while true
        invariant zeroTime == zeroTimeOld == old(zeroTime)
        decreases left
      {
        zeroTimeNew := zeroTimeOld - tokenCount / l.rate;
        var ok;
        ok, zeroTimeOld := CompareExchange(zeroTimeOld, zeroTimeNew, left > 0);
        if ok {
          return;
        }
        left := left - 1;
      }
    }

    method Consume(l: Limits, toConsume: real, now: real, spurious: nat) returns (ok: bool)
      modifies this
      ensures (zeroTime, Granted(ok)) == Exec(l, old(zeroTime), Op.Consume(toConsume), now)
    {
      if now <= zeroTime {
        return false;
      }
      var taken := ConsumeImpl(l, now, TakeAll(toConsume), spurious);
      ok := taken.Some?;
    }

    method ConsumeOrDrain(l: Limits, toConsume: real, now: real, spurious: nat) returns (consumed: real)
      modifies this
      ensures (zeroTime, Drained(consumed)) == Exec(l, old(zeroTime), Drain(toConsume), now)
    {
      if now <= zeroTime {
        return 0.0;
      }
      var taken := ConsumeImpl(l, now, TakeSome(toConsume), spurious);
      consumed := taken.value;
    }

    method ReturnTokens(l: Limits, tokensToReturn: real, spurious: nat)
      requires tokensToReturn > 0.0
      modifies this
      ensures forall now :: (zeroTime, Returned) == Exec(l, old(zeroTime), Return(tokensToReturn), now)
    {
      var _ := ReturnTokensImpl(l, tokensToReturn, spurious);
    }

    /** The borrowing loop ends within two passes and moves the zero time as one grant of the
        whole amount would. */
    method ConsumeWithBorrow(l: Limits, amount: real, now: real, spurious: nat) returns (wait: Option<real>)
      modifies this
      ensures (zeroTime, Reserved(wait)) == Exec(l, old(zeroTime), Borrow(amount), now)
    {
      if l.burst < amount {
        return None;
      }
      var toConsume := amount;
      var passes := 0;
      ghost var start := zeroTime;
      while toConsume > 0.0
        invariant 0 <= passes <= 1
        invariant passes == 0 ==> toConsume == amount && zeroTime == start
        invariant passes == 1 ==> 0.0 <= toConsume && start < now && 0.0 < amount
        invariant passes == 1 && toConsume == 0.0 ==> zeroTime == GrantTo(l, start, now, amount) <= now
        invariant passes == 1 && toConsume > 0.0 ==>
                    zeroTime == now && now + toConsume / l.rate == GrantTo(l, start, now, amount)
        decreases 2 - passes
      {
        var consumed := ConsumeOrDrain(l, toConsume, now, spurious);
        if consumed > 0.0 {
          BorrowPass(l, start, now, amount, consumed);
          assert passes == 0;
          toConsume := toConsume - consumed;
        } else {
          BorrowAhead(l, start, now, amount);
          var zeroTimeNew := ReturnTokensImpl(l, -toConsume, spurious);
          NegatedCount(l, toConsume);
          assert zeroTimeNew == GrantTo(l, start, now, amount);
          return Some(Max(0.0, zeroTimeNew - now));
        }
        passes := passes + 1;
      }
      return Some(0.0);
    }

    method AvailableTokens(l: Limits, now: real) returns (tokens: real)
      ensures Exec(l, zeroTime, Available, now) == (zeroTime, Holding(tokens))
    {
      var zt := zeroTime;
      BalanceSign(l, zt, now);
      if now <= zt {
        return 0.0;
      }
      BalanceIs(l, zt, now);
      tokens := Min((now - zt) * l.rate, l.burst);
    }
  }

  lemma BalanceIs(l: Limits, zero: real, now: real)
    ensures Balance(l, zero, now) == Min((now - zero) * l.rate, l.burst)
  {
  }

  lemma BorrowPass(l: Limits, zero: real, now: real, amount: real, consumed: real)
    requires zero < now && 0.0 < amount <= l.burst && consumed == Min(amount, Balance(l, zero, now))
    ensures 0.0 < consumed
    ensures consumed == amount ==> GrantTo(l, zero, now, amount) <= now
    ensures consumed < amount ==>
              && GrantTo(l, zero, now, consumed) == now
              && now + (amount - consumed) / l.rate == GrantTo(l, zero, now, amount)
  {
    GrantMovesZero(l, zero, now, consumed);
    assert (amount - consumed) / l.rate == amount / l.rate - consumed / l.rate;
    assert (Balance(l, zero, now) - consumed) / l.rate >= 0.0;
  }

  lemma BorrowAhead(l: Limits, zero: real, now: real, amount: real)
    ensures now <= zero ==> GrantTo(l, zero, now, amount) == zero + amount / l.rate
  {
    assert l.burst / l.rate > 0.0;
  }

  lemma NegatedCount(l: Limits, n: real)
    ensures -n / l.rate == -(n / l.rate)
  {
    DivSub(0.0, n, l.rate);
  }

  lemma FilledBalance(l: Limits, tokens: real, now: real, t: real)
    ensures Balance(l, now - tokens / l.rate, t) == Min(tokens + (t - now) * l.rate, l.burst)
  {
    var x := tokens / l.rate;
    DivTimes(tokens, l.rate);
    Distribute(t - now, x, l.rate);
    assert t - (now - x) == t - now + x;
  }

  /** A bucket that carries its own limits. */
  class TokenBucket {
    const bucket: DynamicTokenBucket
    var limits: Limits

    constructor (limits: Limits, zeroTime: real)
      ensures this.limits == limits && bucket.zeroTime == zeroTime && fresh(bucket)
    {
      this.limits := limits;
      bucket := new DynamicTokenBucket(zeroTime);
    }

    method SetCapacity(tokens: real, now: real)
      modifies bucket
      ensures forall t :: Balance(limits, bucket.zeroTime, t) == Min(tokens + (t - now) * limits.rate, limits.burst)
    {
      bucket.Reset(now - tokens / limits.rate);
      forall t ensures Balance(limits, bucket.zeroTime, t) == Min(tokens + (t - now) * limits.rate, limits.burst) {
        FilledBalance(limits, tokens, now, t);
      }
    }

    /** Changing the limits keeps the available tokens, cut to the new burst size, and forgives
        whatever was borrowed. */
    method Reset(limits: Limits, now: real)
      modifies this, bucket
      ensures this.limits == limits
      ensures Balance(limits, bucket.zeroTime, now) ==
              Min(Max(0.0, Balance(old(this.limits), old(bucket.zeroTime), now)), limits.burst)
    {
      var availTokens := bucket.AvailableTokens(this.limits, now);
      BalanceSign(this.limits, bucket.zeroTime, now);
      this.limits := limits;
      SetCapacity(availTokens, now);
    }
  }

  lemma BalanceSign(l: Limits, zero: real, now: real)
    ensures now <= zero <==> Balance(l, zero, now) <= 0.0
  {
    TimesMonotone(now - zero, 0.0, l.rate);
    var x := (now - zero) * l.rate;
    assert now <= zero <==> x <= 0.0;
    assert Balance(l, zero, now) == Min(x, l.burst);
  }

  // ---------------------------------------------------------------- the textbook bucket

  /** A bucket that stores a token count and the time of its last refill. */
  datatype Textbook = Textbook(count: real, last: real)

  function Refill(l: Limits, b: Textbook, now: real): Textbook {
    Textbook(Min(b.count + (now - b.last) * l.rate, l.burst), now)
  }

  /** Takes `n` tokens; never more than the burst size stays. */
  function Withdraw(l: Limits, b: Textbook, n: real): Textbook {
    b.(count := Min(b.count - n, l.burst))
  }

  function BookExec(l: Limits, b: Textbook, op: Op, now: real): (Textbook, Answer) {
    var full := Refill(l, b, now);
    match op
    case Consume(n) =>
      if full.count <= 0.0 || full.count < n then (full, Granted(false)) else (Withdraw(l, full, n), Granted(true))
    case Drain(n) =>
      if full.count <= 0.0 then (full, Drained(0.0))
      else (Withdraw(l, full, Min(n, full.count)), Drained(Min(n, full.count)))
    case Borrow(n) =>
      if l.burst < n then (full, Reserved(None))
      else if n <= 0.0 then (full, Reserved(Some(0.0)))
      else var b' := Withdraw(l, full, n); (b', Reserved(Some(Max(0.0, -b'.count / l.rate))))
    case Return(n) => (Withdraw(l, full, -n), Returned)
    case Available => (full, Holding(Max(0.0, full.count)))
  }

  ghost predicate Agrees(l: Limits, zero: real, b: Textbook) {
    b.count == Balance(l, zero, b.last)
  }

  lemma RefillAgrees(l: Limits, zero: real, b: Textbook, now: real)
    requires Agrees(l, zero, b) && b.last <= now
    ensures Agrees(l, zero, Refill(l, b, now))
  {
    Distribute(b.last - zero, now - b.last, l.rate);
    assert b.last - zero + (now - b.last) == now - zero;
    TimesMonotone(0.0, now - b.last, l.rate);
    MinTwice((b.last - zero) * l.rate, (now - b.last) * l.rate, l.burst);
  }

  lemma MinTwice(x: real, y: real, burst: real)
    requires y >= 0.0
    ensures Min(Min(x, burst) + y, burst) == Min(x + y, burst)
  {
  }

  lemma GrantWithdraws(l: Limits, zero: real, now: real, n: real)
    ensures Agrees(l, GrantTo(l, zero, now, n), Withdraw(l, Textbook(Balance(l, zero, now), now), n))
  {
    var held := Balance(l, zero, now);
    GrantMovesZero(l, zero, now, n);
    FilledBalance(l, held - n, now, now);
  }

  lemma ConsumeAgrees(l: Limits, zero: real, n: real, now: real)
    ensures var full := Textbook(Balance(l, zero, now), now);
            var (z, a) := Exec(l, zero, Consume(n), now);
            a == (if full.count <= 0.0 || full.count < n then Granted(false) else Granted(true))
            && Agrees(l, z, if full.count <= 0.0 || full.count < n then full else Withdraw(l, full, n))
  {
    BalanceSign(l, zero, now);
    GrantWithdraws(l, zero, now, n);
  }

  lemma DrainAgrees(l: Limits, zero: real, n: real, now: real)
    ensures var full := Textbook(Balance(l, zero, now), now);
            var (z, a) := Exec(l, zero, Drain(n), now);
            a == (if full.count <= 0.0 then Drained(0.0) else Drained(Min(n, full.count)))
            && Agrees(l, z, if full.count <= 0.0 then full else Withdraw(l, full, Min(n, full.count)))
  {
    BalanceSign(l, zero, now);
    GrantWithdraws(l, zero, now, Min(n, Balance(l, zero, now)));
  }

  lemma BorrowAgrees(l: Limits, zero: real, n: real, now: real)
    requires 0.0 < n <= l.burst
    ensures var b := Withdraw(l, Textbook(Balance(l, zero, now), now), n);
            Exec(l, zero, Borrow(n), now) == (GrantTo(l, zero, now, n), Reserved(Some(Max(0.0, -b.count / l.rate))))
            && Agrees(l, GrantTo(l, zero, now, n), b)
  {
    var held := Balance(l, zero, now);
    GrantWithdraws(l, zero, now, n);
    GrantMovesZero(l, zero, now, n);
    NegatedCount(l, held - n);
  }

  lemma ReturnAgrees(l: Limits, zero: real, n: real, now: real)
    requires n > 0.0
    ensures Agrees(l, zero - n / l.rate, Withdraw(l, Textbook(Balance(l, zero, now), now), -n))
  {
    DivTimes(n, l.rate);
    Distribute(now - zero, n / l.rate, l.rate);
    assert now - (zero - n / l.rate) == now - zero + n / l.rate;
    MinTwice((now - zero) * l.rate, n, l.burst);
  }

  /** One operation: same answer, and the two buckets still agree. */
  lemma ExecAgrees(l: Limits, zero: real, b: Textbook, op: Op, now: real)
    requires Agrees(l, zero, b) && b.last <= now
    requires op.Return? ==> op.n > 0.0
    ensures Exec(l, zero, op, now).1 == BookExec(l, b, op, now).1
    ensures Agrees(l, Exec(l, zero, op, now).0, BookExec(l, b, op, now).0)
    ensures BookExec(l, b, op, now).0.last == now
  {
    RefillAgrees(l, zero, b, now);
    var full := Refill(l, b, now);
    assert full == Textbook(Balance(l, zero, now), now);
    match op
    case Consume(n) => ConsumeAgrees(l, zero, n, now);
    case Drain(n) => DrainAgrees(l, zero, n, now);
    case Borrow(n) =>
      if 0.0 < n <= l.burst {
        BorrowAgrees(l, zero, n, now);
      }
    case Return(n) => ReturnAgrees(l, zero, n, now);
    case Available => BalanceSign(l, zero, now);
  }

  function RunZero(l: Limits, zero: real, ops: seq<(Op, real)>): seq<Answer>
    decreases |ops|
  {
    if ops == [] then []
    else var r := Exec(l, zero, ops[0].0, ops[0].1); [r.1] + RunZero(l, r.0, ops[1..])
  }

  function RunBook(l: Limits, b: Textbook, ops: seq<(Op, real)>): seq<Answer>
    decreases |ops|
  {
    if ops == [] then []
    else var r := BookExec(l, b, ops[0].0, ops[0].1); [r.1] + RunBook(l, r.0, ops[1..])
  }

  ghost predicate Monotone(from: real, ops: seq<(Op, real)>) {
    && (forall i :: 0 <= i < |ops| ==> from <= ops[i].1)
    && (forall i, j :: 0 <= i < j < |ops| ==> ops[i].1 <= ops[j].1)
    && (forall i :: 0 <= i < |ops| && ops[i].0.Return? ==> ops[i].0.n > 0.0)
  }

  /** Under a clock that never runs backwards, every sequence of operations is answered exactly
      as the textbook bucket answers it. */
  lemma {:induction false} RunsAgree(l: Limits, zero: real, b: Textbook, ops: seq<(Op, real)>)
    requires Agrees(l, zero, b) && Monotone(b.last, ops)
    ensures RunZero(l, zero, ops) == RunBook(l, b, ops)
    decreases |ops|
  {
    if ops != [] {
      var op, now := ops[0].0, ops[0].1;
      ExecAgrees(l, zero, b, op, now);
      assert Monotone(now, ops[1..]);
      RunsAgree(l, Exec(l, zero, op, now).0, BookExec(l, b, op, now).0, ops[1..]);
    }
  }

  // ---------------------------------------------------------------- reservations and returns

  function RunTo(l: Limits, zero: real, ops: seq<(Op, real)>): real {
    if ops == [] then zero else Exec(l, RunTo(l, zero, ops[..|ops| - 1]), ops[|ops| - 1].0, ops[|ops| - 1].1).0
  }

  /** How far an operation can move the zero time back: by what it returns, or takes less than nothing. */
  function Back(l: Limits, op: Op): real {
    match op
    case Return(n) => Max(0.0, n) / l.rate
    case Consume(n) => Max(0.0, -n) / l.rate
    case Drain(n) => Max(0.0, -n) / l.rate
    case _ => 0.0
  }

  /** How far the operations from `i` up to `j` can. */
  function BackBy(l: Limits, ops: seq<(Op, real)>, i: nat, j: nat): real
    requires i <= j <= |ops|
  {
    if i == j then 0.0 else BackBy(l, ops, i, j - 1) + Back(l, ops[j - 1].0)
  }

  lemma Quotient(x: real, r: real)
    requires r > 0.0
    ensures x >= 0.0 ==> x / r >= 0.0
    ensures -x / r == -(x / r)
  {
    DivSub(0.0, x, r);
  }

  lemma MovesBack(l: Limits, zero: real, op: Op, now: real)
    ensures Exec(l, zero, op, now).0 >= zero - Back(l, op) && Back(l, op) >= 0.0
  {
    match op
    case Return(n) => ReturnMovesBack(l, n);
    case Consume(n) => GrantMovesBack(l, zero, now, n, n);
    case Drain(n) => DrainMovesBack(l, zero, now, n);
    case Borrow(n) => BorrowMovesOn(l, zero, now, n);
    case Available =>
  }

  lemma ReturnMovesBack(l: Limits, n: real)
    ensures n / l.rate <= Max(0.0, n) / l.rate && Max(0.0, n) / l.rate >= 0.0
  {
    Quotient(Max(0.0, n), l.rate);
    Quotient(-n, l.rate);
  }

  lemma BorrowMovesOn(l: Limits, zero: real, now: real, n: real)
    ensures Exec(l, zero, Borrow(n), now).0 >= zero
  {
    Quotient(n, l.rate);
  }

  lemma DrainMovesBack(l: Limits, zero: real, now: real, n: real)
    ensures Exec(l, zero, Drain(n), now).0 >= zero - Back(l, Drain(n)) && Back(l, Drain(n)) >= 0.0
  {
    var held := Balance(l, zero, now);
    BalanceSign(l, zero, now);
    if now > zero {
      GrantMovesBack(l, zero, now, Min(n, held), n);
    } else {
      Quotient(Max(0.0, -n), l.rate);
    }
  }

  lemma GrantMovesBack(l: Limits, zero: real, now: real, granted: real, n: real)
    requires granted >= 0.0 || granted == n
    ensures GrantTo(l, zero, now, granted) >= zero - Max(0.0, -n) / l.rate && Max(0.0, -n) / l.rate >= 0.0
  {
    Quotient(Max(0.0, -n), l.rate);
    Quotient(granted, l.rate);
    Quotient(n, l.rate);
  }

  lemma {:induction false} RunMovesBack(l: Limits, zero: real, ops: seq<(Op, real)>, i: nat, j: nat)
    requires i <= j <= |ops|
    ensures RunTo(l, zero, ops[..j]) >= RunTo(l, zero, ops[..i]) - BackBy(l, ops, i, j) && BackBy(l, ops, i, j) >= 0.0
    decreases j
  {
    if i < j {
      RunMovesBack(l, zero, ops, i, j - 1);
      assert ops[..j][..j - 1] == ops[..j - 1];
      MovesBack(l, RunTo(l, zero, ops[..j - 1]), ops[j - 1].0, ops[j - 1].1);
    }
  }

  /** When the reservation made by the k-th operation becomes valid. */
  function ReadyAt(l: Limits, zero: real, ops: seq<(Op, real)>, k: nat): Option<real>
    requires k < |ops|
  {
    match Exec(l, RunTo(l, zero, ops[..k]), ops[k].0, ops[k].1).1
    case Reserved(Some(wait)) => Some(ops[k].1 + wait)
    case _ => None
  }

  lemma ReadyIs(l: Limits, zero: real, ops: seq<(Op, real)>, k: nat)
    requires k < |ops| && ReadyAt(l, zero, ops, k).Some?
    ensures ReadyAt(l, zero, ops, k).value ==
            if ops[k].0.n > 0.0 then Max(ops[k].1, RunTo(l, zero, ops[..k + 1])) else ops[k].1
  {
    assert ops[..k + 1][..k] == ops[..k];
  }

  /** A reservation becomes ready no earlier than one made before it, less what can be moved back by
      the operations between them; one of no tokens is ready when it is made. */
  lemma ReservationsReadyInOrder(l: Limits, zero: real, ops: seq<(Op, real)>, i: nat, j: nat)
    requires i < j < |ops| && ops[i].1 <= ops[j].1
    requires ReadyAt(l, zero, ops, i).Some? && ReadyAt(l, zero, ops, j).Some?
    ensures ops[j].0.n > 0.0 ==>
              ReadyAt(l, zero, ops, i).value - BackBy(l, ops, i + 1, j) <= ReadyAt(l, zero, ops, j).value
    ensures ops[j].0.n <= 0.0 ==> ReadyAt(l, zero, ops, j) == Some(ops[j].1)
  {
    RunMovesBack(l, zero, ops, i + 1, j);
    RunMovesBack(l, zero, ops, j, j + 1);
    ReadyIs(l, zero, ops, i);
    ReadyIs(l, zero, ops, j);
  }

  /** Returns do move the order back by as much: while tokens are owed, a reservation made after a
      return is ready no earlier than one made before exactly when it is for as many tokens. */
  lemma ReturnReorders(l: Limits, zero: real, first: real, returned: real, second: real, now: real)
    requires 0.0 < first <= l.burst && 0.0 < second <= l.burst && 0.0 < returned && now + returned / l.rate <= zero
    ensures var ops := [(Borrow(first), now), (Return(returned), now), (Borrow(second), now)];
            && ReadyAt(l, zero, ops, 0).Some? && ReadyAt(l, zero, ops, 2).Some?
            && (ReadyAt(l, zero, ops, 0).value <= ReadyAt(l, zero, ops, 2).value <==> returned <= second)
  {
    var ops := [(Borrow(first), now), (Return(returned), now), (Borrow(second), now)];
    var z1 := zero + first / l.rate;
    var z2 := z1 - returned / l.rate;
    Quotient(first, l.rate);
    Quotient(second, l.rate);
    Quotient(returned, l.rate);
    Quotient(l.burst, l.rate);
    Quotient(second - returned, l.rate);
    DivSub(second, returned, l.rate);
    DivTimes(second - returned, l.rate);
    TimesMonotone(0.0, (second - returned) / l.rate, l.rate);
    ThreePrefixes(ops);
    assert RunTo(l, zero, ops[..0]) == zero;
    assert RunTo(l, zero, ops[..1]) == z1;
    assert RunTo(l, zero, ops[..2]) == z2;
  }

  lemma ThreePrefixes<T>(ops: seq<T>)
    requires |ops| == 3
    ensures ops[..1][..0] == [] == ops[..0] && ops[..2][..1] == ops[..1]
  {
  }

  /** Consuming and then returning the same amount leaves every later balance as it was. */
  lemma ConsumeThenReturnInvisible(l: Limits, zero: real, n: real, now: real, later: real)
    requires n > 0.0 && now <= later && Exec(l, zero, Consume(n), now).1 == Granted(true)
    ensures var consumed := Exec(l, zero, Consume(n), now).0;
            var returned := Exec(l, consumed, Return(n), now).0;
            Balance(l, returned, later) == Balance(l, zero, later)
  {
    var floor := now - l.burst / l.rate;
    if zero < floor {
      FullStaysFull(l, floor, now, later);
      TimesMonotone(later - floor, later - zero, l.rate);
    }
  }

  lemma FullStaysFull(l: Limits, floor: real, now: real, later: real)
    requires now <= later && floor == now - l.burst / l.rate
    ensures (later - floor) * l.rate >= l.burst
  {
    DivTimes(l.burst, l.rate);
    Distribute(later - now, l.burst / l.rate, l.rate);
    assert later - floor == later - now + l.burst / l.rate;
    TimesMonotone(0.0, later - now, l.rate);
  }
}

/** Any number of threads calling `consume` and `returnTokens` on one bucket. */
module TokenBucketThreads {
  import opened TokenBuckets

  datatype Call = Take(n: real, now: real) | Give(n: real)

  ghost predicate Proper(call: Call) { call.n > 0.0 }

  /** The atomic operation a call stands for. */
  ghost predicate Accepts(l: Limits, zero: real, call: Call) {
    call.Take? ==> zero < call.now && call.n <= Balance(l, zero, call.now)
  }

  ghost function Effect(l: Limits, zero: real, call: Call): real {
    match call
    case Take(n, now) => GrantTo(l, zero, now, n)
    case Give(n) => zero - n / l.rate
  }

  /** The zero time after the atomic operations in `log`, one after the other. */
  ghost function ZeroAfter(l: Limits, zero: real, log: seq<Call>): real {
    if log == [] then zero else Effect(l, ZeroAfter(l, zero, log[..|log| - 1]), log[|log| - 1])
  }

  /** A thread inside a call remembers how long the log was when the call began (`since`), and
      after a load, how long it was at that load (`seen`) together with the value it read. */
  datatype Thread =
    | Idle
    | Called(call: Call, since: nat)
    | Checked(call: Call, since: nat)
    | Loaded(call: Call, since: nat, seen: nat, was: real)
    | Finished(call: Call, since: nat, seen: nat, ok: bool)

  /** `log` lists the calls in the order of their successful exchanges. */
  datatype State = State(zero: real, log: seq<Call>, threads: map<nat, Thread>)

  datatype Step = Begin(t: nat, call: Call) | Check(t: nat) | Load(t: nat) | Round(t: nat, spurious: bool)

  /** No thread is in a call yet. */
  ghost predicate Initial(zero: real, s: State) {
    s.zero == zero && s.log == [] && forall t :: t in s.threads ==> s.threads[t] == Idle
  }

  ghost predicate Enabled(s: State, step: Step) {
    && step.t in s.threads
    && var th := s.threads[step.t];
       match step
       case Begin(_, call) => (th.Idle? || th.Finished?) && Proper(call)
       case Check(_) => th.Called?
       case Load(_) => th.Checked?
       case Round(_, _) => th.Loaded?
  }

  /** The value a thread tries to store, computed from the value it read. */
  ghost function Desired(l: Limits, th: Thread): real
    requires th.Loaded?
  {
    match th.call
    case Take(n, now) => now - (Balance(l, th.was, now) - n) / l.rate
    case Give(n) => th.was - n / l.rate
  }

  ghost function After(l: Limits, s: State, step: Step): State
    requires Enabled(s, step)
  {
    var t, th := step.t, s.threads[step.t];
    match step
    case Begin(_, call) => s.(threads := s.threads[t := Called(call, |s.log|)])
    case Check(_) =>
      // the early test of `consume`; `returnTokens` has none
      s.(threads := s.threads[t := if th.call.Take? && th.call.now <= s.zero then Finished(th.call, th.since, |s.log|, false)
                                   else Checked(th.call, th.since)])
    case Load(_) => s.(threads := s.threads[t := Loaded(th.call, th.since, |s.log|, s.zero)])
    case Round(_, spurious) =>
      // refuse, exchange, or reload; the exchange may fail spuriously
      if th.call.Take? && Balance(l, th.was, th.call.now) < th.call.n
      then s.(threads := s.threads[t := Finished(th.call, th.since, th.seen, false)])
      else if s.zero == th.was && !spurious
      then State(Desired(l, th), s.log + [th.call], s.threads[t := Finished(th.call, th.since, |s.log|, true)])
      else s.(threads := s.threads[t := th.(seen := |s.log|, was := s.zero)])
  }

  ghost predicate Runs(l: Limits, s: State, steps: seq<Step>)
    decreases |steps|
  {
    steps == [] || (Enabled(s, steps[0]) && Runs(l, After(l, s, steps[0]), steps[1..]))
  }

  ghost function Final(l: Limits, s: State, steps: seq<Step>): State
    requires Runs(l, s, steps)
    decreases |steps|
  {
    if steps == [] then s else Final(l, After(l, s, steps[0]), steps[1..])
  }

  // ---------------------------------------------------------------- linearizability

  /** Replaying the log atomically succeeds at every entry. */
  ghost predicate LogAccepted(l: Limits, zero: real, log: seq<Call>) {
    forall k :: 0 <= k < |log| ==> Proper(log[k]) && Accepts(l, ZeroAfter(l, zero, log[..k]), log[k])
  }

  /** What a thread has read or answered is what the atomic operations before some point
      between the start of its call and now give. */
  ghost predicate ThreadExplained(l: Limits, zero: real, log: seq<Call>, th: Thread) {
    match th
    case Idle => true
    case Called(call, since) => Proper(call) && since <= |log|
    case Checked(call, since) => Proper(call) && since <= |log|
    case Loaded(call, since, seen, was) =>
      Proper(call) && since <= seen <= |log| && was == ZeroAfter(l, zero, log[..seen])
    case Finished(call, since, seen, ok) =>
      && since <= seen <= |log|
      && (ok <==> Accepts(l, ZeroAfter(l, zero, log[..seen]), call))
      && (ok ==> seen < |log| && log[seen] == call)
  }

  ghost predicate Linearized(l: Limits, zero: real, s: State) {
    && s.zero == ZeroAfter(l, zero, s.log)
    && LogAccepted(l, zero, s.log)
    && forall t :: t in s.threads ==> ThreadExplained(l, zero, s.log, s.threads[t])
  }

  lemma ExplainedLater(l: Limits, zero: real, log: seq<Call>, call: Call, th: Thread)
    requires ThreadExplained(l, zero, log, th)
    ensures ThreadExplained(l, zero, log + [call], th)
  {
    if th.Loaded? || th.Finished? {
      assert (log + [call])[..th.seen] == log[..th.seen];
    }
  }

  lemma LogGrows(l: Limits, zero: real, log: seq<Call>, call: Call)
    requires LogAccepted(l, zero, log) && Proper(call) && Accepts(l, ZeroAfter(l, zero, log), call)
    ensures LogAccepted(l, zero, log + [call])
    ensures ZeroAfter(l, zero, log + [call]) == Effect(l, ZeroAfter(l, zero, log), call)
  {
    var log' := log + [call];
    assert log'[..|log|] == log;
    forall k | 0 <= k < |log'| ensures Proper(log'[k]) && Accepts(l, ZeroAfter(l, zero, log'[..k]), log'[k]) {
      if k < |log| {
        assert log'[..k] == log[..k];
      }
    }
  }

  /** A successful exchange is the atomic operation on the value it replaced. */
  lemma ExchangeIsAtomic(l: Limits, th: Thread)
    requires th.Loaded? && Proper(th.call) && (th.call.Take? ==> th.call.n <= Balance(l, th.was, th.call.now))
    ensures Accepts(l, th.was, th.call) && Desired(l, th) == Effect(l, th.was, th.call)
  {
    if th.call.Take? {
      BalanceSign(l, th.was, th.call.now);
      GrantMovesZero(l, th.was, th.call.now, th.call.n);
    }
  }

  lemma ExchangeKeepsLinearized(l: Limits, zero: real, s: State, t: nat)
    requires Linearized(l, zero, s) && t in s.threads && s.threads[t].Loaded? && s.zero == s.threads[t].was
    requires var th := s.threads[t]; th.call.Take? ==> th.call.n <= Balance(l, th.was, th.call.now)
    ensures Linearized(l, zero, After(l, s, Round(t, false)))
  {
    var th, log' := s.threads[t], s.log + [s.threads[t].call];
    assert ThreadExplained(l, zero, s.log, th);
    ExchangeIsAtomic(l, th);
    LogGrows(l, zero, s.log, th.call);
    assert log'[..|s.log|] == s.log;
    forall u | u in s.threads && u != t ensures ThreadExplained(l, zero, log', s.threads[u]) {
      ExplainedLater(l, zero, s.log, th.call, s.threads[u]);
    }
  }

  lemma StepKeepsLinearized(l: Limits, zero: real, s: State, step: Step)
    requires Linearized(l, zero, s) && Enabled(s, step)
    ensures Linearized(l, zero, After(l, s, step))
  {
    var th := s.threads[step.t];
    assert ThreadExplained(l, zero, s.log, th);
    assert s.log[..|s.log|] == s.log;
    if step.Round? && s.zero == th.was && !step.spurious && !(th.call.Take? && Balance(l, th.was, th.call.now) < th.call.n) {
      ExchangeKeepsLinearized(l, zero, s, step.t);
    }
  }

  lemma {:induction false} LinearizedFrom(l: Limits, zero: real, s: State, steps: seq<Step>)
    requires Linearized(l, zero, s) && Runs(l, s, steps)
    ensures Linearized(l, zero, Final(l, s, steps))
    decreases |steps|
  {
    if steps != [] {
      StepKeepsLinearized(l, zero, s, steps[0]);
      LinearizedFrom(l, zero, After(l, s, steps[0]), steps[1..]);
    }
  }

  /** In every interleaving, with any clocks and spurious failures, each finished call got the
      answer of one atomic operation placed between its start and its end, and the zero time is
      what those operations leave. */
  lemma RunsLinearize(l: Limits, zero: real, start: State, steps: seq<Step>)
    requires Initial(zero, start) && Runs(l, start, steps)
    ensures Linearized(l, zero, Final(l, start, steps))
  {
    LinearizedFrom(l, zero, start, steps);
  }

  // ---------------------------------------------------------------- the rate bound

  /** Tokens granted minus tokens given back. */
  ghost function Net(log: seq<Call>): real {
    if log == [] then 0.0 else Net(log[..|log| - 1]) + Signed(log[|log| - 1])
  }

  ghost function Signed(call: Call): real {
    if call.Take? then call.n else 0.0 - call.n
  }

  lemma EffectGrows(l: Limits, zero: real, call: Call)
    ensures Effect(l, zero, call) >= zero + Signed(call) / l.rate
    ensures call.Take? ==> Effect(l, zero, call) >= call.now - l.burst / l.rate + call.n / l.rate
  {
    DivSub(0.0, call.n, l.rate);
  }

  lemma {:induction false} ZeroGrowsByNet(l: Limits, zero: real, log: seq<Call>, i: nat, j: nat)
    requires i < j <= |log| && log[i].Take?
    ensures ZeroAfter(l, zero, log[..j]) >= log[i].now - l.burst / l.rate + Net(log[i..j]) / l.rate
    decreases j
  {
    var last := log[j - 1];
    assert log[..j][..j - 1] == log[..j - 1];
    assert log[i..j][..j - i - 1] == log[i..j - 1];
    EffectGrows(l, ZeroAfter(l, zero, log[..j - 1]), last);
    DivSub(Net(log[i..j]), Signed(last), l.rate);
    if i < j - 1 {
      ZeroGrowsByNet(l, zero, log, i, j - 1);
    } else {
      assert Net(log[i..j]) == Signed(last);
    }
  }

  lemma AcceptedStaysInPast(l: Limits, zero: real, call: Call)
    requires call.Take? && Accepts(l, zero, call)
    ensures Effect(l, zero, call) <= call.now
  {
    GrantMovesZero(l, zero, call.now, call.n);
    var rest := Balance(l, zero, call.now) - call.n;
    DivTimes(rest, l.rate);
    TimesMonotone(0.0, rest / l.rate, l.rate);
  }

  /** The most that may be granted from one instant to another, both included. */
  ghost function Allowance(l: Limits, from: real, to: real): real {
    l.burst + l.rate * (to - from)
  }

  lemma WithinAllowance(l: Limits, net: real, from: real, to: real)
    requires from - l.burst / l.rate + net / l.rate <= to
    ensures net <= Allowance(l, from, to)
  {
    DivTimes(net, l.rate);
    DivTimes(l.burst, l.rate);
    TimesMonotone(net / l.rate - l.burst / l.rate, to - from, l.rate);
    assert (net / l.rate - l.burst / l.rate) * l.rate == net - l.burst;
  }

  /** Between any two grants, first and last included, no more than the burst size plus the
      rate times the time between them is granted, net of what was given back. */
  lemma GrantsWithinRate(l: Limits, zero: real, start: State, steps: seq<Step>, i: nat, j: nat)
    requires Initial(zero, start) && Runs(l, start, steps)
    requires var log := Final(l, start, steps).log; i <= j < |log| && log[i].Take? && log[j].Take?
    ensures var log := Final(l, start, steps).log; Net(log[i..j + 1]) <= Allowance(l, log[i].now, log[j].now)
  {
    RunsLinearize(l, zero, start, steps);
    var log := Final(l, start, steps).log;
    ZeroGrowsByNet(l, zero, log, i, j + 1);
    ZeroAtGrant(l, zero, log, j);
    WithinAllowance(l, Net(log[i..j + 1]), log[i].now, log[j].now);
  }

  lemma ZeroAtGrant(l: Limits, zero: real, log: seq<Call>, j: nat)
    requires LogAccepted(l, zero, log) && j < |log| && log[j].Take?
    ensures ZeroAfter(l, zero, log[..j + 1]) <= log[j].now
  {
    assert log[..j + 1][..j] == log[..j];
    AcceptedStaysInPast(l, ZeroAfter(l, zero, log[..j]), log[j]);
  }
}
