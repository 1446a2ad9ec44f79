/** Creator handles: the display name in snake case, cut to size, with the least free number when it is taken. */
module UniqueHandle {
  import opened Wrappers
  import opened Constants
  import opened Text

  /** The first 20 characters. */
  function Truncated(snake: string): (handle: string)
    ensures |handle| == (if |snake| <= 20 then |snake| else 20) && handle <= snake
  {
    if |snake| > USERNAME_MAX_SIZE then snake[..USERNAME_MAX_SIZE] else snake
  }

  /** The first 16. */
  function Base(snake: string): (base: string)
    ensures |base| == (if |snake| <= 16 then |snake| else 16) && base <= snake
  {
    var handle := Truncated(snake);
    handle[..if |handle| < USERNAME_MAX_SIZE - 4 then |handle| else USERNAME_MAX_SIZE - 4]
  }

  /** What split('_') has at its end. */
  function LastSegment(s: string): string {
    if s == "" || s[|s| - 1] == '_' then "" else LastSegment(s[..|s| - 1]) + [s[|s| - 1]]
  }

  /** The end of the string without an underscore in it and with one before it, if anything is. */
  ghost predicate IsLast(s: string, last: string) {
    && '_' !in last && |last| <= |s| && s[|s| - |last|..] == last
    && (|last| < |s| ==> s[|s| - |last| - 1] == '_')
  }

  lemma {:induction false} LastSegmentIs(s: string)
    ensures IsLast(s, LastSegment(s))
  {
    if s == "" || s[|s| - 1] == '_' {
      NoneAfter(s);
    } else {
      LastSegmentIs(s[..|s| - 1]);
      OneMoreLast(s[..|s| - 1], LastSegment(s[..|s| - 1]), s[|s| - 1]);
      assert s[..|s| - 1] + [s[|s| - 1]] == s;
    }
  }

  lemma {:induction false} NoneAfter(s: string)
    requires s == "" || s[|s| - 1] == '_'
    ensures IsLast(s, "")
  {}

  lemma {:induction false} OneMoreLast(s: string, last: string, c: char)
    requires IsLast(s, last) && c != '_'
    ensures IsLast(s + [c], last + [c])
  {
    assert (s + [c])[|s| - |last|..] == s[|s| - |last|..] + [c];
  }

  lemma {:induction false} LastIsOne(s: string, a: string, b: string)
    requires IsLast(s, a) && IsLast(s, b) && |a| <= |b|
    ensures a == b
  {
    if |a| < |b| {
      assert false;
    }
  }

  /** It determines the segment. */
  lemma {:induction false} LastSegmentExactly(s: string, last: string)
    ensures last == LastSegment(s) <==> IsLast(s, last)
  {
    LastSegmentIs(s);
    if IsLast(s, last) {
      if |last| <= |LastSegment(s)| {
        LastIsOne(s, last, LastSegment(s));
      } else {
        LastIsOne(s, LastSegment(s), last);
      }
    }
  }

  function Numbered(base: string, n: nat): string {
    base + "_" + Decimal(n)
  }

  /** Conversion of a string to a number, None for NaN. All that matters is that it reads decimal numerals. */
  ghost predicate ReadsNumerals(toNumber: string -> Option<real>) {
    forall n: nat :: toNumber(Decimal(n)) == Some(n as real)
  }

  predicate Takes(toNumber: string -> Option<real>, handle: string, n: nat) {
    toNumber(LastSegment(handle)) == Some(n as real)
  }

  predicate Taken(existing: seq<string>, toNumber: string -> Option<real>, n: nat) {
    exists i :: 0 <= i < |existing| && Takes(toNumber, existing[i], n)
  }

  lemma {:induction false} LastSegmentOf(base: string, digits: string)
    requires '_' !in digits
    ensures LastSegment(base + "_" + digits) == digits
  {
    var s := base + "_" + digits;
    if digits == "" {
      assert s == base + "_";
    } else {
      var init := digits[..|digits| - 1];
      LastSegmentOf(base, init);
      assert s[..|s| - 1] == base + "_" + init;
    }
  }

  /** A handle in the table takes its own number. */
  lemma {:induction false} NumberedTakes(base: string, n: nat, existing: seq<string>, toNumber: string -> Option<real>)
    requires ReadsNumerals(toNumber) && Numbered(base, n) in existing
    ensures Taken(existing, toNumber, n)
  {
    LastSegmentOf(base, Decimal(n));
    var i :| 0 <= i < |existing| && existing[i] == Numbered(base, n);
    assert Takes(toNumber, existing[i], n);
  }

  /** Taking k different numbers takes k handles. */
  lemma {:induction false} Pigeonhole(existing: seq<string>, toNumber: string -> Option<real>, k: nat)
    requires forall n :: 1 <= n <= k ==> Taken(existing, toNumber, n)
    ensures k <= |existing|
    decreases k
  {
    if k > 0 {
      assert Taken(existing, toNumber, k);
      var i :| 0 <= i < |existing| && Takes(toNumber, existing[i], k);
      var rest := existing[..i] + existing[i + 1..];
      forall n | 1 <= n <= k - 1 ensures Taken(rest, toNumber, n) {
        assert Taken(existing, toNumber, n);
        var j :| 0 <= j < |existing| && Takes(toNumber, existing[j], n);
        assert rest[if j < i then j else j - 1] == existing[j];
      }
      Pigeonhole(rest, toNumber, k - 1);
    }
  }

  ghost predicate IsLeastFree(existing: seq<string>, toNumber: string -> Option<real>, n: nat) {
    1 <= n <= 998 && !Taken(existing, toNumber, n) && forall m :: 1 <= m < n ==> Taken(existing, toNumber, m)
  }

  /** `handles` is the table, `existing` its handles that start with the base, in any order. */
  method CreateUniqueHandle(snake: string, handles: set<string>, existing: seq<string>,
          toNumber: string -> Option<real>)
    returns (handle: string)
    requires ReadsNumerals(toNumber)
    requires forall h :: h in existing <==> h in handles && Base(snake) <= h
    ensures |handle| <= 20
    ensures Truncated(snake) !in handles ==> handle == Truncated(snake)
    ensures Truncated(snake) in handles ==> forall n :: IsLeastFree(existing, toNumber, n) ==>
              handle == Numbered(Base(snake), n)
    ensures handle !in handles <==> Truncated(snake) !in handles || exists n :: IsLeastFree(existing, toNumber, n)
    ensures |existing| < 998 ==> handle !in handles
  {
    handle := Truncated(snake);
    if handle !in handles {
      return;
    }
    var baseHandle := Base(snake);
    var takenHandleNumbers: set<real> := {};
    for i := 0 to |existing|
      invariant forall x ::
                  x in takenHandleNumbers <==> exists k :: 0 <= k < i && toNumber(LastSegment(existing[k])) == Some(x)
    {
      var number := toNumber(LastSegment(existing[i]));
      if number.Some? {
        takenHandleNumbers := takenHandleNumbers + {number.value};
      }
    }
    var currentNumber: nat := 1;
    while currentNumber < 999
      invariant 1 <= currentNumber <= 999
      invariant forall m :: 1 <= m < currentNumber ==> Taken(existing, toNumber, m)
    {
      if currentNumber as real !in takenHandleNumbers {
        assert !Taken(existing, toNumber, currentNumber);
        handle := baseHandle + "_" + Decimal(currentNumber);
        DecimalLength(currentNumber);
        if handle in handles {
          assert baseHandle <= handle;
          NumberedTakes(baseHandle, currentNumber, existing, toNumber);
          assert false;
        }
        assert IsLeastFree(existing, toNumber, currentNumber);
        return;
      }
      ghost var k :| 0 <= k < |existing| && toNumber(LastSegment(existing[k])) == Some(currentNumber as real);
      assert Takes(toNumber, existing[k], currentNumber);
      currentNumber := currentNumber + 1;
    }
    Pigeonhole(existing, toNumber, 998);
  }
}
