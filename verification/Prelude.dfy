/** Vocabulary shared by the models: optional values, results, and the little text handling
    (strip, case folding) that the runtime applies to its inputs. */
module Prelude {

  datatype Option<+T> = None | Some(value: T)

  /** The value, or a default in its place. */
  function ValueOr<T>(x: Option<T>, default: T): T {
    if x.Some? then x.value else default
  }

  datatype Result<+T, +E> = Ok(value: T) | Err(error: E) {
    predicate IsFailure() {
      Err?
    }

    function PropagateFailure<U>(): Result<U, E>
      requires Err?
    {
      Err(error)
    }

    function Extract(): T
      requires Ok?
    {
      value
    }
  }

  /** An optional argument of a JSON-shaped operation after its normaliser has looked at it. */
  datatype Arg<+T> = Absent | Malformed | Given(value: T) {
    function Or<E>(default: T, error: E): Result<T, E> {
      match this
      case Absent => Ok(default)
      case Malformed => Err(error)
      case Given(v) => Ok(v)
    }
  }

  function Min(a: int, b: int): int {
    if a <= b then a else b
  }

  function Max(a: int, b: int): int {
    if a >= b then a else b
  }

  /** The characters Python's `str.strip` removes. */
  predicate IsSpace(c: char) {
    var n := c as int;
    || 0x9 <= n <= 0xD || 0x1C <= n <= 0x20 || n == 0x85 || n == 0xA0 || n == 0x1680
    || 0x2000 <= n <= 0x200A || n == 0x2028 || n == 0x2029 || n == 0x202F || n == 0x205F || n == 0x3000
  }

  function StripLeft(s: string): string {
    if s != [] && IsSpace(s[0]) then StripLeft(s[1..]) else s
  }

  function StripRight(s: string): string {
    if s != [] && IsSpace(s[|s| - 1]) then StripRight(s[..|s| - 1]) else s
  }

  function Strip(s: string): string {
    StripRight(StripLeft(s))
  }

  lemma {:induction false} StripLeftCuts(s: string) returns (i: nat)
    ensures i <= |s| && StripLeft(s) == s[i..] && forall k :: 0 <= k < i ==> IsSpace(s[k])
    ensures i < |s| ==> !IsSpace(s[i])
  {
    if s != [] && IsSpace(s[0]) {
      var rest := StripLeftCuts(s[1..]);
      i := rest + 1;
      assert s[1..][rest..] == s[i..];
      assert forall k :: 0 < k < i ==> s[k] == s[1..][k - 1];
    } else {
      i := 0;
    }
  }

  lemma {:induction false} StripRightCuts(s: string) returns (j: nat)
    ensures j <= |s| && StripRight(s) == s[..j] && forall k :: j <= k < |s| ==> IsSpace(s[k])
    ensures j > 0 ==> !IsSpace(s[j - 1])
  {
    if s != [] && IsSpace(s[|s| - 1]) {
      j := StripRightCuts(s[..|s| - 1]);
      assert s[..|s| - 1][..j] == s[..j];
    } else {
      j := |s|;
      assert s[..j] == s;
    }
  }

  /** What is stripped is blank, and what is left neither begins nor ends with a blank. */
  lemma StripIsExact(s: string) returns (i: nat, j: nat)
    ensures i <= j <= |s| && Strip(s) == s[i..j]
    ensures forall k :: 0 <= k < |s| && !(i <= k < j) ==> IsSpace(s[k])
    ensures i < j ==> !IsSpace(s[i]) && !IsSpace(s[j - 1])
  {
    i := StripLeftCuts(s);
    var rest := StripRightCuts(s[i..]);
    j := i + rest;
    assert s[i..][..rest] == s[i..j];
    assert forall k :: i <= k < |s| ==> s[k] == s[i..][k - i];
  }

  /** One case-folding relation stands for both `str.casefold` and SQLite's NOCASE. */
  function Fold(s: string): string {
    if s == [] then [] else [if 'A' <= s[0] <= 'Z' then s[0] + ' ' else s[0]] + Fold(s[1..])
  }

  /** Folding works letter by letter. */
  lemma {:induction false} FoldIsExact(s: string, k: nat)
    requires k < |s|
    ensures |Fold(s)| == |s|
    ensures 'A' <= s[k] <= 'Z' ==> Fold(s)[k] as int == s[k] as int + 32
    ensures !('A' <= s[k] <= 'Z') ==> Fold(s)[k] == s[k]
  {
    if |s| > 1 {
      FoldIsExact(s[1..], if k == 0 then 0 else k - 1);
    }
  }
}
