/** Bytes, byte strings and the few sequence facts the other modules share. */
module Bytes {

  type Byte = b: int | 0 <= b < 256

  /** A C++ `std::string` or `std::vector<uint8_t>`. */
  type ByteString = seq<Byte>

  datatype Option<+T> = None | Some(value: T)

  /** `size_t` arithmetic is modulo this. */
  const WORD: nat := 0x1_0000_0000_0000_0000

  function Max(a: int, b: int): int {
    if a < b then b else a
  }

  /** The bytes of an ASCII literal. */
  function Ascii(s: string): (r: ByteString)
    ensures |r| == |s|
  {
    seq(|s|, i requires 0 <= i < |s| => s[i] as int % 256)
  }

  function Map<T, U>(s: seq<T>, f: T -> U): (r: seq<U>)
    ensures |r| == |s| && forall i :: 0 <= i < |s| ==> r[i] == f(s[i])
  {
    seq(|s|, i requires 0 <= i < |s| => f(s[i]))
  }

  /** A list that a loop has worked off up to position k: `done`, and then the rest of `all`. */
  lemma AtHead<T>(s: seq<T>, done: seq<T>, all: seq<T>, k: nat)
    requires k < |all| && s == done + all[k..]
    ensures s[..|done|] == done && s[|done|] == all[k] && s[|done| + 1..] == all[k + 1..]
    ensures s == done + [all[k]] + all[k + 1..]
  {
  }

  /** Positions in order, below a bound. */
  ghost predicate Ascending(ks: seq<nat>, bound: int) {
    && (forall i, j :: 0 <= i < j < |ks| ==> ks[i] < ks[j])
    && (forall i :: 0 <= i < |ks| ==> ks[i] < bound)
  }

  /** `sub` is what stands in `all` at the positions `at`, in order. */
  ghost predicate Picks<T>(sub: seq<T>, at: seq<nat>, all: seq<T>) {
    && |at| == |sub| && Ascending(at, |all|)
    && forall i :: 0 <= i < |at| ==> at[i] < |all| && all[at[i]] == sub[i]
  }

  /** The positions are exactly those marked. */
  ghost predicate Exactly(at: seq<nat>, marks: seq<bool>) {
    && (forall i :: 0 <= i < |at| ==> at[i] < |marks| && marks[at[i]])
    && (forall i :: 0 <= i < |marks| && marks[i] ==> i in at)
  }

  lemma PickNone<T>(all: seq<T>, marks: seq<bool>)
    requires all == [] && marks == []
    ensures Picks([], [], all) && Exactly([], marks)
  {
  }

  lemma PickMore<T>(sub: seq<T>, at: seq<nat>, all: seq<T>, marks: seq<bool>)
    requires all != [] && |marks| == |all|
    requires var n := |all| - 1; Picks(sub, at, all[..n]) && Exactly(at, marks[..n])
    ensures var n := |all| - 1;
            if marks[n] then Picks(sub + [all[n]], at + [n], all) && Exactly(at + [n], marks) else Picks(sub, at, all) && Exactly(at, marks)
  {
    hide Picks, Exactly;
    var n := |all| - 1;
    assert all == all[..n] + [all[n]] && marks == marks[..n] + [marks[n]];
    PickedMore(sub, at, all[..n], all[n]);
    MarkedMore(at, marks[..n], marks[n]);
  }

  lemma PickedMore<T>(sub: seq<T>, at: seq<nat>, all: seq<T>, x: T)
    requires Picks(sub, at, all)
    ensures Picks(sub, at, all + [x]) && Picks(sub + [x], at + [|all|], all + [x])
  {
  }

  lemma MarkedMore(at: seq<nat>, marks: seq<bool>, mark: bool)
    requires Exactly(at, marks)
    ensures if mark then Exactly(at + [|marks|], marks + [mark]) else Exactly(at, marks + [mark])
  {
    var more, all := if mark then at + [|marks|] else at, marks + [mark];
    forall i | 0 <= i < |all| && all[i] ensures i in more {
      if i < |marks| {
        assert marks[i];
      } else {
        assert more[|at|] == i;
      }
    }
  }

  ghost predicate NoDup<T>(s: seq<T>) {
    forall i, j :: 0 <= i < j < |s| ==> s[i] != s[j]
  }

  /** `s` without the first occurrence of `x`, as `erase(find(..))` leaves it. */
  function Without<T(==)>(s: seq<T>, x: T): seq<T> {
    if s == [] then []
    else if s[0] == x then s[1..]
    else [s[0]] + Without(s[1..], x)
  }

  lemma {:induction false} WithoutElements<T>(s: seq<T>, x: T)
    requires NoDup(s)
    ensures NoDup(Without(s, x))
    ensures forall y :: y in Without(s, x) <==> y in s && y != x
    ensures |Without(s, x)| == |s| - (if x in s then 1 else 0)
  {
    if s != [] {
      var rest := s[1..];
      assert s == [s[0]] + rest && s[0] !in rest;
      if s[0] != x {
        WithoutElements(rest, x);
        NoDupCons(s[0], Without(rest, x));
      }
    }
  }

  lemma NoDupCons<T>(x: T, s: seq<T>)
    requires NoDup(s) && x !in s
    ensures NoDup([x] + s)
  {
  }

  lemma {:induction false} WithoutAt<T>(s: seq<T>, x: T, k: nat)
    requires k < |s| && s[k] == x
    requires forall i :: 0 <= i < k ==> s[i] != x
    ensures Without(s, x) == s[..k] + s[k + 1..]
  {
    if k > 0 {
      WithoutAt(s[1..], x, k - 1);
      assert s[..k] == [s[0]] + s[1..][..k - 1];
    }
  }

  lemma {:induction false} WithoutAbsent<T>(s: seq<T>, x: T)
    requires x !in s
    ensures Without(s, x) == s
  {
    if s != [] {
      WithoutAbsent(s[1..], x);
      assert s == [s[0]] + s[1..];
    }
  }

  lemma {:induction false} NoDupOnce<T>(s: seq<T>)
    requires NoDup(s)
    ensures forall x :: x in s ==> multiset(s)[x] == 1
  {
    if s != [] {
      assert forall y :: y in s[1..] ==> y != s[0];
      NoDupOnce(s[1..]);
      assert s == [s[0]] + s[1..];
    }
  }
}
