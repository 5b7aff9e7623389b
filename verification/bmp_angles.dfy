/**
  From the angle on the command line to a number of quarter turns.
 */
module Angles {
  import opened Images

  predicate IsSpace(c: char) { c in {' ', '\t', '\n', '\r', '\U{0B}', '\U{0C}'} }

  predicate IsDigit(c: char) { '0' <= c <= '9' }

  /** The number that the leading digits of s spell, after what is read already. */
  function Digits(s: string, n: nat): nat
    decreases |s|
  {
    if s == "" || !IsDigit(s[0]) then n else Digits(s[1..], 10 * n + (s[0] as int - '0' as int))
  }

  /** atoi, for numbers that an int can hold. */
  function Atoi(s: string): int
    decreases |s|
  {
    if s == "" then 0
    else if IsSpace(s[0]) then Atoi(s[1..])
    else if s[0] == '-' then 0 - Digits(s[1..], 0)
    else if s[0] == '+' then Digits(s[1..], 0)
    else Digits(s, 0)
  }

  /** Division and remainder of C, which truncate toward zero. */
  function Quotient(a: int, b: int): int
    requires b > 0
  {
    if a >= 0 then a / b else -((-a) / b)
  }

  function Remainder(a: int, b: int): int
    requires b > 0
  {
    a - b * Quotient(a, b)
  }

  function CountOf(a: int): int {
    Quotient(Remainder(360 + a, 360), 90)
  }

  /** The turns for an angle; main refuses -1.  No string equals all seven angles, so the
      last branch is never taken. */
  function Validate(angle: string): int {
    if angle != "90" || angle != "180" || angle != "270" || angle != "-90" || angle != "-180" || angle != "-270" ||
        angle != "0"
    then CountOf(Atoi(angle))
    else -1
  }

  /** The angles that the program is documented to take. */
  predicate Listed(angle: string) {
    angle == "0" || angle == "90" || angle == "180" || angle == "270" || angle == "-90" || angle == "-180" ||
        angle == "-270"
  }

  lemma SpelledDigits()
    ensures Digits("0", 0) == 0 && Digits("90", 0) == 90 && Digits("180", 0) == 180 && Digits("270", 0) == 270
  {
    assert Digits("0", 0) == Digits("", 0) == 0;
    assert Digits("90", 0) == Digits("0", 9) == Digits("", 90) == 90;
    assert Digits("180", 0) == Digits("80", 1) == Digits("0", 18) == Digits("", 180) == 180;
    assert Digits("270", 0) == Digits("70", 2) == Digits("0", 27) == Digits("", 270) == 270;
  }

  lemma Spelled()
    ensures Atoi("0") == 0 && Atoi("90") == 90 && Atoi("180") == 180 && Atoi("270") == 270
    ensures Atoi("-90") == -90 && Atoi("-180") == -180 && Atoi("-270") == -270
  {
    SpelledDigits();
    hide Digits;
    assert "-90"[1..] == "90" && "-180"[1..] == "180" && "-270"[1..] == "270";
  }

  /** No string is all seven angles at once: the test for them tells none apart. */
  lemma TestIsAlwaysTrue(angle: string)
    ensures Validate(angle) == CountOf(Atoi(angle))
  {
    hide Atoi, CountOf;
    if angle == "90" { assert |angle| == 2; }
  }

  /** Each of the seven angles gives the number of turns, 0 to 3, that makes the angle
      clockwise. */
  lemma ListedAngles(angle: string)
    requires Listed(angle)
    ensures 0 <= Validate(angle) <= 3 && (90 * Validate(angle) - Atoi(angle)) % 360 == 0
  {
    hide Atoi, Validate, Listed;
    ListedValue(angle);
    TestIsAlwaysTrue(angle);
  }

  lemma ListedValue(angle: string)
    requires Listed(angle)
    ensures Atoi(angle) in {0, 90, 180, 270, -90, -180, -270}
  {
    Spelled();
    hide Atoi;
  }

  lemma CountParts(a: int) returns (q: int, r: int, k: int)
    ensures 360 + a == 360 * q + r && k == CountOf(a)
    ensures if 360 + a >= 0 then 0 <= r < 360 && 90 * k <= r < 90 * k + 90
        else -360 < r <= 0 && 90 * k - 90 < r <= 90 * k
  {
    q, r, k := Quotient(360 + a, 360), Remainder(360 + a, 360), CountOf(a);
  }

  lemma ModShift(x: int, m: int)
    ensures (x + 360 * m) % 360 == x % 360 && (x + 360 * m) % 90 == x % 90
  {
    ModOf(x + 360 * m, x / 360 + m, x % 360);
    ModOf90(x + 360 * m, x / 90 + 4 * m, x % 90);
  }

  lemma ModOf(x: int, q: int, r: int)
    requires x == 360 * q + r && 0 <= r < 360
    ensures x % 360 == r
  {
  }

  lemma ModOf90(x: int, q: int, r: int)
    requires x == 90 * q + r && 0 <= r < 90
    ensures x % 90 == r
  {
  }

  /** For which numbers the count is right: a multiple of 90 that is a full turn or more
      below zero comes out negative unless it is whole turns. */
  lemma CountIsRight(a: int)
    ensures 0 <= CountOf(a) <= 3 && (90 * CountOf(a) - a) % 360 == 0 <==> a % 90 == 0 && (a >= -360 || a % 360 == 0)
  {
    var q, r, k := CountParts(a);
    ModShift(90 * k - r, 1 - q);
    ModShift(r, q - 1);
    assert 90 * k - a == 90 * k - r + 360 * (1 - q) && a == r + 360 * (q - 1);
    hide CountOf;
    assert (90 * k - r) % 360 == 0 <==> r == 90 * k;
    assert r % 90 == 0 <==> r == 90 * k;
  }

  /** Which strings main refuses as a wrong angle. */
  lemma RefusedExactly(angle: string)
    ensures Validate(angle) == -1 <==> -180 < Remainder(360 + Atoi(angle), 360) <= -90
  {
    hide Atoi, Validate;
    TestIsAlwaysTrue(angle);
    var q, r, k := CountParts(Atoi(angle));
  }

  /** A multiple of 90 is refused exactly when it is 90 degrees short of one or more whole
      turns below zero, beyond the first. */
  lemma RefusedMultiples(angle: string)
    requires Atoi(angle) % 90 == 0
    ensures Validate(angle) == -1 <==> Atoi(angle) < -360 && Atoi(angle) % 360 == 270
  {
    hide Atoi, Validate;
    RefusedExactly(angle);
    var a := Atoi(angle);
    var q, r, k := CountParts(a);
    ModShift(r, q - 1);
    assert a == r + 360 * (q - 1);
  }

  /** One string of each kind: refused; not an angle but taken for no turn; not listed but
      taken; a negative number of turns. */
  lemma UnlistedAngles()
    ensures Validate("-450") == -1 && Validate("right") == 0 && Validate("45") == 0 && Validate("-540") == -2
  {
    UnlistedNumbers();
    assert CountOf(-450) == -1 && CountOf(0) == 0 && CountOf(45) == 0 && CountOf(-540) == -2;
    hide Atoi, CountOf, Validate;
    TestIsAlwaysTrue("-450");
    TestIsAlwaysTrue("right");
    TestIsAlwaysTrue("45");
    TestIsAlwaysTrue("-540");
  }

  lemma UnlistedNumbers()
    ensures Atoi("-450") == -450 && Atoi("right") == 0 && Atoi("45") == 45 && Atoi("-540") == -540
  {
    UnlistedDigits();
    hide Digits;
    assert "-450"[1..] == "450" && "-540"[1..] == "540";
  }

  lemma UnlistedDigits()
    ensures Digits("450", 0) == 450 && Digits("540", 0) == 540 && Digits("45", 0) == 45 && Digits("right", 0) == 0
  {
    assert Digits("450", 0) == Digits("50", 4) == Digits("0", 45) == Digits("", 450) == 450;
    assert Digits("540", 0) == Digits("40", 5) == Digits("0", 54) == Digits("", 540) == 540;
    assert Digits("45", 0) == Digits("5", 4) == Digits("", 45) == 45;
    assert Digits("right", 0) == 0;
  }

  /** Turning by one listed angle and then by another is turning by their sum. */
  lemma AnglesAdd(p: Picture, a: string, b: string, c: string)
    requires p.Whole() && Listed(a) && Listed(b) && Listed(c) && (Atoi(a) + Atoi(b) - Atoi(c)) % 360 == 0
    ensures 0 <= Validate(a) && 0 <= Validate(b) && 0 <= Validate(c)
    ensures Turns(Turns(p, Validate(a)), Validate(b)) == Turns(p, Validate(c))
  {
    hide Turns, Validate, Atoi, Listed;
    ListedAngles(a);
    ListedAngles(b);
    ListedAngles(c);
    TurnsCompose(p, Validate(a), Validate(b));
    SumOfCounts(Validate(a), Validate(b), Validate(c), Atoi(a), Atoi(b), Atoi(c));
  }

  lemma SumOfCounts(x: nat, y: nat, z: nat, a: int, b: int, c: int)
    requires x <= 3 && y <= 3 && z <= 3 && (90 * x - a) % 360 == 0 && (90 * y - b) % 360 == 0 &&
        (90 * z - c) % 360 == 0 && (a + b - c) % 360 == 0
    ensures (x + y) % 4 == z
  {
    var i, j, k, m := (90 * x - a) / 360, (90 * y - b) / 360, (90 * z - c) / 360, (a + b - c) / 360;
    assert 90 * x - a == 360 * i && 90 * y - b == 360 * j && 90 * z - c == 360 * k && a + b - c == 360 * m;
    assert x + y - z == 4 * (i + j - k + m);
  }
}
