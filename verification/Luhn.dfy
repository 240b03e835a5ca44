/** The Luhn check of card numbers, and which typing errors it catches. */
module Luhn {
  import opened Wrappers

  type Digit = d: nat | d <= 9

  predicate HasCardLength(s: seq<Digit>) {
    13 <= |s| <= 19
  }

  function Doubled(d: Digit): nat {
    if d * 2 > 9 then d * 2 - 9 else d * 2
  }

  /** What the digit at a distance `i` from the right end adds to the checksum. */
  function Weight(i: nat, d: Digit): nat
  {
    if i % 2 == 1 then Doubled(d) else d
  }

  /** The checksum, from the left. */
  function Checksum(s: seq<Digit>): nat
  {
    if |s| == 0 then 0 else Weight(|s| - 1, s[0]) + Checksum(s[1..])
  }

  predicate Valid(s: seq<Digit>) {
    HasCardLength(s) && Checksum(s) % 10 == 0
  }

  lemma {:induction false} ChecksumConcat(a: seq<Digit>, b: seq<Digit>)
    ensures Checksum(a + b) == ChecksumAt(a, |b|) + Checksum(b)
  {
    if |a| == 0 {
      assert a + b == b;
    } else {
      assert (a + b)[1..] == a[1..] + b;
      ChecksumConcat(a[1..], b);
    }
  }

  /** The part of the checksum due to digits that have `k` more digits to their right. */
  function ChecksumAt(s: seq<Digit>, k: nat): nat
  {
    if |s| == 0 then 0 else Weight(|s| - 1 + k, s[0]) + ChecksumAt(s[1..], k)
  }

  /** The loop over the reversed digits. */
  method SumDigits(s: seq<Digit>) returns (checksum: nat)
    ensures checksum == Checksum(s)
  {
    checksum := 0;
    for i := 0 to |s|
      invariant checksum == Checksum(s[|s| - i..])
    {
      var d := s[|s| - 1 - i];
      assert s[|s| - (i + 1)..][1..] == s[|s| - i..];
      if i % 2 == 1 {
        var doubled := d as nat * 2;
        checksum := checksum + (if doubled > 9 then doubled - 9 else doubled);
      } else {
        checksum := checksum + (d as nat);
      }
    }
    assert s[0..] == s;
  }

  /** What is left of a text without blanks and dashes. */
  function Clean(text: string, blank: char -> bool): string {
    if |text| == 0 then ""
    else
      var n := |text| - 1;
      Clean(text[..n], blank) + (if blank(text[n]) || text[n] == '-' then "" else [text[n]])
  }

  /** The values of digit characters. */
  function DigitsOf(s: string, value: char -> Option<Digit>): (r: seq<Digit>)
    requires forall c <- s :: value(c).Some?
    ensures |r| == |s|
  {
    seq(|s|, i requires 0 <= i < |s| && value(s[i]).Some? => value(s[i]).value)
  }

  /** re.sub of blanks and dashes. */
  method Strip(text: string, blank: char -> bool) returns (clean: string)
    ensures clean == Clean(text, blank)
  {
    clean := "";
    for i := 0 to |text|
      invariant clean == Clean(text[..i], blank)
    {
      assert text[..i + 1][..i] == text[..i];
      if !(blank(text[i]) || text[i] == '-') {
        clean := clean + [text[i]];
      }
    }
    assert text[..|text|] == text;
  }

  /**
   A card number however it is grouped: only digits once blanks and dashes are out, 13 to 19 of them, and the checksum.
   `digit` is isdigit() and `value` is int(), None where it raises: there are digits that are no decimals.
   */
  method IsValid(text: string, blank: char -> bool, digit: char -> bool, value: char -> Option<Digit>)
      returns (ok: Option<bool>)
    ensures var clean := Clean(text, blank);
            ok == if (exists c <- clean :: !digit(c)) || !(13 <= |clean| <= 19) then Some(false)
                  else if exists c <- clean :: value(c).None? then None
                  else Some(Valid(DigitsOf(clean, value)))
  {
    var clean := Strip(text, blank);
    if (exists c <- clean :: !digit(c)) || !(13 <= |clean| <= 19) {
      return Some(false);
    }
    if exists c <- clean :: value(c).None? {
      return None;
    }
    var checksum := SumDigits(DigitsOf(clean, value));
    ok := Some(checksum % 10 == 0);
  }

  /** The checksum around one digit. */
  lemma Around(s: seq<Digit>, k: nat)
    requires k < |s|
    ensures Checksum(s) == ChecksumAt(s[..k], |s| - k) + Weight(|s| - 1 - k, s[k]) + Checksum(s[k + 1..])
  {
    hide Weight, ChecksumAt;
    assert s[k..][1..] == s[k + 1..];
    assert Checksum(s[k..]) == Weight(|s| - 1 - k, s[k]) + Checksum(s[k + 1..]);
    hide Checksum;
    assert s == s[..k] + s[k..];
    ChecksumConcat(s[..k], s[k..]);
  }

  lemma WeightIsInjective(i: nat, d: Digit, e: Digit)
    requires Weight(i, d) % 10 == Weight(i, e) % 10
    ensures d == e
  {
  }

  lemma SameRest(rest: nat, x: nat, y: nat)
    ensures (rest + x) % 10 == (rest + y) % 10 <==> x % 10 == y % 10
  {
  }

  /** The two checksums differ only in what the changed digit adds. */
  lemma ChangeSums(s: seq<Digit>, k: nat, d: Digit) returns (rest: nat)
    requires k < |s|
    ensures Checksum(s) == rest + Weight(|s| - 1 - k, s[k]) && Checksum(s[k := d]) == rest + Weight(|s| - 1 - k, d)
  {
    hide Checksum, ChecksumAt, Weight;
    var t := s[k := d];
    Around(s, k);
    Around(t, k);
    assert t[..k] == s[..k] && t[k + 1..] == s[k + 1..];
    rest := ChecksumAt(s[..k], |s| - k) + Checksum(s[k + 1..]);
  }

  /** A single wrong digit is always caught. */
  lemma SingleErrorCaught(s: seq<Digit>, k: nat, d: Digit)
    requires Valid(s) && k < |s| && d != s[k]
    ensures !Valid(s[k := d])
  {
    hide Checksum, Weight;
    var rest := ChangeSums(s, k, d);
    var x, y := Weight(|s| - 1 - k, s[k]), Weight(|s| - 1 - k, d);
    SameRest(rest, x, y);
    if x % 10 == y % 10 {
      WeightIsInjective(|s| - 1 - k, s[k], d);
    }
  }

  /** Doubling a digit moves it by its value up to 4, and back by its distance from 9 above. */
  lemma DoublingMoves(a: Digit)
    ensures Doubled(a) as int - a as int == if a < 5 then a as int else a as int - 9
  {
  }

  lemma CloseResidues(x: nat, y: nat)
    requires -10 < x - y < 10
    ensures x % 10 == y % 10 <==> x == y
  {
  }

  lemma PairWeights(i: nat, a: Digit, b: Digit)
    ensures (Weight(i + 1, a) + Weight(i, b)) % 10 == (Weight(i + 1, b) + Weight(i, a)) % 10 <==>
              a == b || (a == 0 && b == 9) || (a == 9 && b == 0)
  {
    DoublingMoves(a);
    DoublingMoves(b);
    var x, y := Doubled(a) + b, Doubled(b) + a;
    CloseResidues(x, y);
    if i % 2 == 0 {
      assert Weight(i + 1, a) + Weight(i, b) == x && Weight(i + 1, b) + Weight(i, a) == y;
    } else {
      assert Weight(i + 1, a) + Weight(i, b) == y && Weight(i + 1, b) + Weight(i, a) == x;
    }
  }

  /** The checksum around two neighbours. */
  lemma AroundPair(s: seq<Digit>, k: nat)
    requires k + 1 < |s|
    ensures Checksum(s) ==
              ChecksumAt(s[..k], |s| - k) + Weight(|s| - 1 - k, s[k]) + Weight(|s| - 2 - k, s[k + 1])
                + Checksum(s[k + 2..])
  {
    Around(s, k);
    assert s[k + 1..][1..] == s[k + 2..];
  }

  /** Two neighbours swapped go unnoticed exactly when they are equal or are 0 and 9. */
  lemma SwapCaught(s: seq<Digit>, k: nat)
    requires Valid(s) && k + 1 < |s|
    ensures Valid(Swapped(s, k)) <==>
              s[k] == s[k + 1] || (s[k] == 0 && s[k + 1] == 9) || (s[k] == 9 && s[k + 1] == 0)
  {
    hide Checksum, Weight, Swapped;
    SwapParts(s, k);
    var rest := SwapSums(s, k);
    var i := |s| - 2 - k;
    PairWeights(i, s[k], s[k + 1]);
    SameRest(rest, Weight(i + 1, s[k]) + Weight(i, s[k + 1]), Weight(i + 1, s[k + 1]) + Weight(i, s[k]));
  }

  /** The two checksums differ only in what the two neighbours add. */
  lemma SwapSums(s: seq<Digit>, k: nat) returns (rest: nat)
    requires k + 1 < |s|
    ensures var i := |s| - 2 - k;
            && Checksum(s) == rest + (Weight(i + 1, s[k]) + Weight(i, s[k + 1]))
            && Checksum(Swapped(s, k)) == rest + (Weight(i + 1, s[k + 1]) + Weight(i, s[k]))
  {
    hide Checksum, ChecksumAt, Weight, Swapped;
    SwapParts(s, k);
    AroundPair(s, k);
    AroundPair(Swapped(s, k), k);
    rest := ChecksumAt(s[..k], |s| - k) + Checksum(s[k + 2..]);
  }

  function Swapped(s: seq<Digit>, k: nat): seq<Digit>
    requires k + 1 < |s|
  {
    s[k := s[k + 1]][k + 1 := s[k]]
  }

  lemma SwapParts(s: seq<Digit>, k: nat)
    requires k + 1 < |s|
    ensures var t := Swapped(s, k);
            |t| == |s| && t[..k] == s[..k] && t[k] == s[k + 1] && t[k + 1] == s[k] && t[k + 2..] == s[k + 2..]
  {
  }

  // ---- the check digit -------------------------------------------------------------------------

  /** Sum of the digits of twice a digit. */
  function TwiceDigits(d: Digit): nat {
    d * 2 / 10 + d * 2 % 10
  }

  /** From the right, every other digit of the payload doubled, beginning with the last. */
  function PayloadSum(p: seq<Digit>): nat {
    var n := |p|;
    if n == 0 then 0
    else if n == 1 then TwiceDigits(p[0])
    else PayloadSum(p[..n - 2]) + p[n - 2] + TwiceDigits(p[n - 1])
  }

  lemma {:induction false} SumAtConcat(a: seq<Digit>, b: seq<Digit>, k: nat)
    ensures ChecksumAt(a + b, k) == ChecksumAt(a, |b| + k) + ChecksumAt(b, k)
  {
    if |a| == 0 {
      assert a + b == b;
    } else {
      assert (a + b)[1..] == a[1..] + b;
      SumAtConcat(a[1..], b, k);
    }
  }

  lemma {:induction false} EveryOther(s: seq<Digit>, k: nat)
    ensures ChecksumAt(s, k + 2) == ChecksumAt(s, k)
  {
    if |s| > 0 { EveryOther(s[1..], k); }
  }

  lemma LastTwo(a: Digit, b: Digit)
    ensures ChecksumAt([b], 1) == TwiceDigits(b)
    ensures ChecksumAt([a, b], 1) == a + TwiceDigits(b)
  {
    assert [b][1..] == [] && [a, b][1..] == [b];
  }

  lemma {:induction false} PayloadSumIs(p: seq<Digit>)
    ensures ChecksumAt(p, 1) == PayloadSum(p)
  {
    var n := |p|;
    if n == 1 {
      LastTwo(0, p[0]);
      assert p == [p[0]];
    } else if n > 1 {
      var front, last := p[..n - 2], [p[n - 2], p[n - 1]];
      assert p == front + last;
      PayloadSumIs(front);
      SumAtConcat(front, last, 1);
      EveryOther(front, 1);
      LastTwo(p[n - 2], p[n - 1]);
      hide ChecksumAt;
    }
  }

  lemma SumToTen(sum: nat, d: Digit)
    ensures (sum + d) % 10 == 0 <==> d == (10 - sum % 10) % 10
  {
  }

  lemma OneDigit(d: Digit)
    ensures Checksum([d]) == d
  {
    assert [d][1..] == [];
  }

  lemma CompletesTo(p: seq<Digit>, d: Digit)
    ensures Valid(p + [d]) <==> 12 <= |p| <= 18 && (PayloadSum(p) + d) % 10 == 0
  {
    hide ChecksumAt, Checksum, PayloadSum;
    ChecksumConcat(p, [d]);
    PayloadSumIs(p);
    OneDigit(d);
  }

  /** The digit that brings a sum to a multiple of ten. */
  function Complement(sum: nat): Digit {
    (10 - sum % 10) % 10
  }

  ghost predicate OnlyCompletion(p: seq<Digit>, e: Digit) {
    forall d: Digit :: Valid(p + [d]) <==> d == e
  }

  lemma OnlyComplement(p: seq<Digit>, d: Digit)
    requires 12 <= |p| <= 18
    ensures Valid(p + [d]) <==> d == Complement(PayloadSum(p))
  {
    hide Valid, PayloadSum;
    CompletesTo(p, d);
    SumToTen(PayloadSum(p), d);
  }

  /**
   A payload of 12 to 18 digits and a last digit make a valid number exactly when that digit brings the payload's sum to
   a multiple of ten, so exactly one last digit does.
   */
  lemma CheckDigit(p: seq<Digit>, d: Digit)
    ensures Valid(p + [d]) <==> 12 <= |p| <= 18 && (PayloadSum(p) + d) % 10 == 0
    ensures 12 <= |p| <= 18 ==> exists e :: OnlyCompletion(p, e)
  {
    hide Valid, PayloadSum;
    CompletesTo(p, d);
    if 12 <= |p| <= 18 {
      hide Complement;
      var e := Complement(PayloadSum(p));
      forall other: Digit
        ensures Valid(p + [other]) <==> other == e
      {
        OnlyComplement(p, other);
      }
      assert OnlyCompletion(p, e);
    }
  }
}
