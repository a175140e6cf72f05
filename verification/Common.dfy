// Shared vocabulary: optional values, time units and decimal rendering.
module Common {

  datatype Option<+T> = None | Some(value: T)

  // All instants and durations are whole microseconds, the resolution of the source's datetimes.
  const SECOND: int := 1_000_000
  const DAY: int := 86_400 * SECOND

  function Max(a: int, b: int): int {
    if a < b then b else a
  }

  // `int(delta.total_seconds())`: whole seconds, truncated toward zero.
  function WholeSeconds(micros: int): int {
    if micros >= 0 then micros / SECOND else -(-micros / SECOND)
  }

  // `str(n)` for a natural number.
  function Decimal(n: nat): (s: string)
    ensures s != [] && forall c <- s :: '0' <= c <= '9'
  {
    var last := [('0' as int + n % 10) as char];
    if n < 10 then last else Decimal(n / 10) + last
  }

  // Reads a run of digits back.
  function Parse(s: string): int {
    if s == [] then 0
    else Parse(s[..|s| - 1]) * 10 + (s[|s| - 1] as int - '0' as int)
  }

  lemma {:induction false} ParseDecimal(n: nat)
    ensures Parse(Decimal(n)) == n
  {
    if n >= 10 {
      var s := Decimal(n);
      assert s[..|s| - 1] == Decimal(n / 10);
      ParseDecimal(n / 10);
    } else {
      assert Parse([]) == 0;
    }
  }

  // ---- keys joined with a colon ------------------------------------------------------------

  // Two splits of one string at different colons: the later part of the first holds a colon, and
  // so does the earlier part of the second.
  lemma TwoColons(a: string, x: string, b: string, y: string)
    requires a + ":" + x == b + ":" + y && |a| < |b|
    ensures ':' in x && ':' in b
  {
    var s, t := a + ":" + x, b + ":" + y;
    assert t[|b|] == ':' && s[|a|] == ':';
    assert s[|b|] == x[|b| - |a| - 1] && t[|a|] == b[|a|];
  }

  lemma SameColon(a: string, x: string, b: string, y: string)
    requires a + ":" + x == b + ":" + y && |a| == |b|
    ensures a == b && x == y
  {
    var s, t := a + ":" + x, b + ":" + y;
    assert s[..|a|] == a && t[..|b|] == b;
    assert s[|a| + 1..] == x && t[|b| + 1..] == y;
  }

  // A string splits in one way at its last colon, and in one way at its first.
  lemma ColonSplitIsUnique(a: string, x: string, b: string, y: string)
    requires a + ":" + x == b + ":" + y
    requires (':' !in x && ':' !in y) || (':' !in a && ':' !in b)
    ensures a == b && x == y
  {
    if |a| < |b| {
      TwoColons(a, x, b, y);
    } else if |b| < |a| {
      TwoColons(b, y, a, x);
    } else {
      SameColon(a, x, b, y);
    }
  }

  // ---- division ------------------------------------------------------------------------------

  lemma MulMonotone(a: int, b: int, d: nat)
    requires a <= b
    ensures a * d <= b * d
  {}

  lemma DivisionBounds(a: nat, d: nat)
    requires d > 0
    ensures (a / d) * d <= a < (a / d + 1) * d
  {
    assert a == (a / d) * d + a % d;
  }

  lemma DivisionIsMonotone(a: nat, b: nat, d: nat)
    requires d > 0 && a <= b
    ensures a / d <= b / d
  {
    DivisionBounds(a, d);
    DivisionBounds(b, d);
    if b / d + 1 <= a / d {
      MulMonotone(b / d + 1, a / d, d);
    }
  }

  lemma DivisionByStep(a: nat, b: nat, d: nat)
    requires d > 0 && b <= a + d
    ensures b / d <= a / d + 1
  {
    DivisionBounds(a, d);
    DivisionBounds(b, d);
    if a / d + 2 <= b / d {
      MulMonotone(a / d + 2, b / d, d);
    }
  }
}
