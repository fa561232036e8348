/** The little text rendering the warnings need: decimal numbers, ISO dates, comma lists. */
module Text {
  import opened Schedule

  function Digit(n: nat): char
    requires n < 10
  {
    "0123456789"[n]
  }

  function Digits(n: nat): string {
    if n < 10 then [Digit(n)] else Digits(n / 10) + [Digit(n % 10)]
  }

  // --- what the rendered text reads as -----------------------------------------------

  /** The number a string of digits stands for. */
  ghost function Reading(s: string): int {
    if s == "" then 0 else 10 * Reading(s[..|s| - 1]) + (s[|s| - 1] as int - '0' as int)
  }

  ghost predicate AllDigits(s: string) {
    forall i :: 0 <= i < |s| ==> '0' <= s[i] <= '9'
  }

  /** A number's digits read back as the number, without leading zeros. */
  lemma {:induction false} DigitsRead(n: nat)
    ensures Digits(n) != "" && AllDigits(Digits(n)) && Reading(Digits(n)) == n
    ensures n > 0 ==> Digits(n)[0] != '0'
  {
    if n < 10 {
      DigitReads(n);
    } else {
      DigitsRead(n / 10);
      DigitReads(n % 10);
      DigitAdded(Digits(n / 10), Digit(n % 10));
    }
  }

  lemma DigitReads(n: nat)
    requires n < 10
    ensures '0' <= Digit(n) <= '9' && Digit(n) as int - '0' as int == n
    ensures n > 0 ==> Digit(n) != '0'
  {
  }

  lemma DigitAdded(s: string, c: char)
    requires s != "" && AllDigits(s) && '0' <= c <= '9'
    ensures AllDigits(s + [c]) && (s + [c])[0] == s[0] && Reading(s + [c]) == 10 * Reading(s) + (c as int - '0' as int)
  {
    assert (s + [c])[..|s|] == s;
  }

  lemma {:induction false} DigitsFit(n: nat, width: nat, bound: nat)
    requires width > 0 && bound == Power10(width) && n < bound
    ensures |Digits(n)| <= width
  {
    if n >= 10 {
      assert width > 1;
      DigitsFit(n / 10, width - 1, Power10(width - 1));
    }
  }

  ghost function Power10(k: nat): nat {
    if k == 0 then 1 else 10 * Power10(k - 1)
  }

  lemma {:induction false} ZeroPadded(s: string)
    requires AllDigits(s)
    ensures AllDigits("0" + s) && Reading("0" + s) == Reading(s)
  {
    if s != "" {
      ZeroPadded(s[..|s| - 1]);
      assert ("0" + s)[..|s|] == "0" + s[..|s| - 1];
    }
  }

  lemma {:induction false} PaddedReads(s: string, width: nat)
    requires AllDigits(s) && |s| <= width
    ensures |Padded(s, width)| == width && AllDigits(Padded(s, width)) && Reading(Padded(s, width)) == Reading(s)
    decreases width - |s|
  {
    if |s| < width {
      ZeroPadded(s);
      PaddedReads("0" + s, width);
    }
  }

  lemma FieldReads(n: nat, width: nat)
    requires width > 0 && n < Power10(width)
    ensures var s := Padded(Decimal(n), width);
      |s| == width && AllDigits(s) && Reading(s) == n
  {
    DigitsRead(n);
    DigitsFit(n, width, Power10(width));
    PaddedReads(Decimal(n), width);
  }

  /** A date's text is four digits, two and two between dashes, and reads back as the date. */
  lemma IsoReads(d: Date)
    requires 1 <= d.year <= 9999
    ensures |Iso(d)| == 10 && Iso(d)[4] == '-' && Iso(d)[7] == '-'
    ensures Reading(Iso(d)[..4]) == d.year
    ensures Reading(Iso(d)[5..7]) == d.monthDay.month && Reading(Iso(d)[8..]) == d.monthDay.day
  {
    assert Power10(1) == 10 && Power10(2) == 100 && Power10(3) == 1000 && Power10(4) == 10000;
    assert d.monthDay.Valid();
    FieldReads(d.year, 4);
    FieldReads(d.monthDay.month, 2);
    FieldReads(d.monthDay.day, 2);
    var y, m, k := Padded(Decimal(d.year), 4), Padded(Decimal(d.monthDay.month), 2), Padded(Decimal(d.monthDay.day), 2);
    IsoParts(y, m, k, Iso(d));
  }

  lemma IsoParts(y: string, m: string, k: string, all: string)
    requires |y| == 4 && |m| == 2 && |k| == 2 && all == y + "-" + m + "-" + k
    ensures |all| == 10 && all[4] == '-' && all[7] == '-' && all[..4] == y && all[5..7] == m && all[8..] == k
  {
  }

  /** One more part goes to the end, after a comma. */
  lemma {:induction false} CommaListGrows(parts: seq<string>, last: string)
    requires parts != []
    ensures CommaList(parts + [last]) == CommaList(parts) + ", " + last
    ensures CommaList([last]) == last && CommaList([]) == ""
  {
    var longer := parts + [last];
    assert longer[0] == parts[0] && longer[1..] == parts[1..] + [last];
    if |parts| > 1 {
      CommaListGrows(parts[1..], last);
      assert CommaList(longer) == parts[0] + ", " + CommaList(longer[1..]);
    } else {
      assert longer[1..] == [last];
    }
  }

  /** `str(n)`. */
  function Decimal(n: int): string {
    if n < 0 then "-" + Digits(-n) else Digits(n)
  }

  function Padded(s: string, width: nat): string
    decreases width - |s|
  {
    if |s| < width then Padded("0" + s, width) else s
  }

  /** `date.isoformat()`. */
  function Iso(d: Date): string {
    Padded(Decimal(d.year), 4) + "-" + Padded(Decimal(d.monthDay.month), 2) + "-" + Padded(Decimal(d.monthDay.day), 2)
  }

  /** `", ".join(parts)`. */
  function CommaList(parts: seq<string>): string {
    if parts == [] then "" else if |parts| == 1 then parts[0] else parts[0] + ", " + CommaList(parts[1..])
  }
}
