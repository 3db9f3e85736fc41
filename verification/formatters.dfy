/** Input masks of src/lib/formatters.ts, applied to a field on every keystroke.

    Each mask is modelled twice: as the source writes it (digit-count cases and
    slices) and as a reference — a list of digit groups, each introduced by a
    separator, as in `###.###.###-##`, filled with the digits in order, where a
    group's separator is written only when a digit goes into the group. The two
    are proved equal, and the mask properties (digits kept, length bound,
    idempotence) are proved once for every mask. */
module Formatters {
  import opened Text

  /** `s.slice(a, b)` for `0 <= a <= b`: both ends clamp to the length. */
  function Slice(s: string, a: nat, b: nat): (r: string)
    requires a <= b
  {
    var hi := if b <= |s| then b else |s|;
    var lo := if a <= hi then a else hi;
    s[lo..hi]
  }

  /** The first `k` elements of `s`, or all of it when it is shorter. */
  function Take(s: string, k: nat): (r: string)
    ensures |r| == (if |s| <= k then |s| else k) && r == s[..|r|]
  {
    if |s| <= k then s else s[..k]
  }

  // ---------------------------------------------------------------------------
  // The masks as written

  /** `formatCPF`: the digits of the input laid out as `###.###.###-##`. */
  function FormatCPF(value: string): string {
    CpfLayout(Digits(value))
  }

  /** The body of `formatCPF` once the digits `n` have been extracted. */
  function CpfLayout(n: string): string {
    if |n| == 0 then ""
    else if |n| <= 3 then n
    else if |n| <= 6 then n[..3] + ("." + n[3..])
    else if |n| <= 9 then n[..3] + ("." + n[3..6] + ("." + n[6..]))
    else n[..3] + ("." + n[3..6] + ("." + n[6..9] + ("-" + Slice(n, 9, 11))))
  }

  /** `formatDate`: the digits of the input laid out as `##/##/####`. */
  function FormatDate(value: string): string {
    DateLayout(Digits(value))
  }

  function DateLayout(n: string): string {
    if |n| == 0 then ""
    else if |n| <= 2 then n
    else if |n| <= 4 then n[..2] + ("/" + n[2..])
    else n[..2] + ("/" + n[2..4] + ("/" + Slice(n, 4, 8)))
  }

  /** `formatWhatsApp`: the digits of the input laid out as `(##) #####-####`. */
  function FormatWhatsApp(value: string): string {
    WhatsAppLayout(Digits(value))
  }

  function WhatsAppLayout(n: string): string {
    if |n| == 0 then ""
    else if |n| <= 2 then "(" + n
    else if |n| <= 7 then "(" + n[..2] + (") " + n[2..])
    else if |n| <= 11 then "(" + n[..2] + (") " + n[2..7] + ("-" + n[7..]))
    else "(" + n[..2] + (") " + n[2..7] + ("-" + n[7..11]))
  }

  /** What the salary field shows: nothing, or the typed digits read as a
      number of cents (rendered in reais by the locale formatter). */
  datatype SalaryText = Blank | Currency(cents: nat)

  function FormatSalary(value: string): (r: SalaryText)
    ensures r.Blank? <==> forall i :: 0 <= i < |value| ==> !IsDigit(value[i])
    ensures r.Currency? ==> r.cents == DecimalValue(Digits(value))
  {
    DigitsEmptyIffNoDigit(value);
    var n := Digits(value);
    if |n| == 0 then Blank else Currency(DecimalValue(n))
  }

  lemma {:induction false} DigitsEmptyIffNoDigit(s: string)
    ensures Digits(s) == [] <==> forall i :: 0 <= i < |s| ==> !IsDigit(s[i])
  {
    if s != [] {
      DigitsEmptyIffNoDigit(s[1..]);
      assert forall i :: 1 <= i < |s| ==> s[i] == s[1..][i - 1];
    }
  }

  // ---------------------------------------------------------------------------
  // The reference: filling a mask of digit groups

  /** `width` digit positions introduced by the separator `sep`. */
  datatype Group = Group(sep: string, width: nat)

  type Mask = seq<Group>

  /** `###.###.###-##` */
  const CpfMask: Mask := [Group("", 3), Group(".", 3), Group(".", 3), Group("-", 2)]
  /** `##/##/####` */
  const DateMask: Mask := [Group("", 2), Group("/", 2), Group("/", 4)]
  /** `(##) #####-####` */
  const WhatsAppMask: Mask := [Group("(", 2), Group(") ", 5), Group("-", 4)]

  /** Every group holds a digit and no separator contains one. */
  predicate WellFormedMask(m: Mask) {
    forall i :: 0 <= i < |m| ==> m[i].width > 0 && forall j :: 0 <= j < |m[i].sep| ==> !IsDigit(m[i].sep[j])
  }

  /** How many digits the mask holds. */
  function Capacity(m: Mask): nat {
    if m == [] then 0 else m[0].width + Capacity(m[1..])
  }

  /** How many characters the fully filled mask has. */
  function Width(m: Mask): nat {
    if m == [] then 0 else |m[0].sep| + m[0].width + Width(m[1..])
  }

  /** The digits `d` written into the groups of `m` in order; a group is
      written (with its separator) only when a digit goes into it, and digits
      beyond the mask's capacity are dropped. */
  function Fill(m: Mask, d: string): string {
    if m == [] || d == [] then []
    else if |d| <= m[0].width then m[0].sep + d
    else m[0].sep + d[..m[0].width] + Fill(m[1..], d[m[0].width..])
  }

  lemma {:induction false} FillLength(m: Mask, d: string)
    ensures |Fill(m, d)| <= Width(m)
  {
    if m != [] && d != [] && |d| > m[0].width {
      FillLength(m[1..], d[m[0].width..]);
    }
  }

  lemma {:induction false} SeparatorHasNoDigits(sep: string)
    requires forall j :: 0 <= j < |sep| ==> !IsDigit(sep[j])
    ensures Digits(sep) == []
  {
    if sep != [] {
      SeparatorHasNoDigits(sep[1..]);
    }
  }

  /** The digits of one written group followed by the rest are the group's digits followed by the rest's. */
  lemma GroupDigits(sep: string, digits: string, tail: string)
    requires forall j :: 0 <= j < |sep| ==> !IsDigit(sep[j])
    requires AllDigits(digits)
    ensures Digits(sep + digits + tail) == digits + Digits(tail)
  {
    SeparatorHasNoDigits(sep);
    DigitsOfDigits(digits);
    DigitsAppend(sep, digits);
    assert Digits(sep) + Digits(digits) == [] + digits == digits;
    DigitsAppend(sep + digits, tail);
  }

  /** Dropping the first group of a well-formed mask leaves a well-formed mask. */
  lemma WellFormedRest(m: Mask)
    requires WellFormedMask(m) && m != []
    ensures WellFormedMask(m[1..])
    ensures m[0].width > 0 && forall j :: 0 <= j < |m[0].sep| ==> !IsDigit(m[0].sep[j])
  {
    assert m[0] in m;
    forall i | 0 <= i < |m[1..]| ensures m[1..][i] == m[i + 1] { }
  }

  /** The digits of a filled mask are the digits that fit in it. */
  lemma {:induction false} FillDigits(m: Mask, d: string)
    requires WellFormedMask(m) && AllDigits(d)
    ensures Digits(Fill(m, d)) == Take(d, Capacity(m))
  {
    if m == [] {
      assert Take(d, 0) == [];
    } else if d != [] {
      var w, sep, rest := m[0].width, m[0].sep, m[1..];
      WellFormedRest(m);
      if |d| <= w {
        GroupDigits(sep, d, []);
        assert sep + d + [] == sep + d;
      } else {
        var head, tail := d[..w], d[w..];
        assert AllDigits(head) && AllDigits(tail);
        assert Fill(m, d) == sep + head + Fill(rest, tail);
        GroupDigits(sep, head, Fill(rest, tail));
        FillDigits(rest, tail);
        var k := Capacity(rest);
        assert Capacity(m) == w + k;
        if |tail| <= k {
          assert d == head + tail;
        } else {
          assert d[..w + k] == head + tail[..k];
        }
      }
    }
  }

  /** Only the digits that fit the mask matter. */
  lemma {:induction false} FillTake(m: Mask, d: string)
    requires WellFormedMask(m)
    ensures Fill(m, Take(d, Capacity(m))) == Fill(m, d)
  {
    if m != [] && d != [] {
      var w := m[0].width;
      var e := Take(d, Capacity(m));
      assert m[0] in m;
      assert Capacity(m) == w + Capacity(m[1..]);
      if |d| > w && m[1..] == [] {
        assert Capacity(m[1..]) == 0;
        assert e == d[..w];
      } else if |d| > w {
        assert m[1] in m;
        assert |e| > w;
        assert e[..w] == d[..w];
        assert WellFormedMask(m[1..]) by {
          forall i | 0 <= i < |m[1..]| ensures m[1..][i] == m[i + 1] { }
        }
        FillTake(m[1..], d[w..]);
        assert e[w..] == Take(d[w..], Capacity(m[1..]));
      }
    }
  }

  /** A mask keeps exactly the first `Capacity(m)` digits of its input, in order. */
  lemma MaskKeepsLeadingDigits(m: Mask, value: string)
    requires WellFormedMask(m)
    ensures Digits(Fill(m, Digits(value))) == Take(Digits(value), Capacity(m))
  {
    FillDigits(m, Digits(value));
  }

  /** Applying a mask to its own output changes nothing. */
  lemma MaskIdempotent(m: Mask, value: string)
    requires WellFormedMask(m)
    ensures Fill(m, Digits(Fill(m, Digits(value)))) == Fill(m, Digits(value))
  {
    FillDigits(m, Digits(value));
    FillTake(m, Digits(value));
  }

  lemma CpfMaskShape()
    ensures WellFormedMask(CpfMask) && Capacity(CpfMask) == 11 && Width(CpfMask) == 14
  {
    assert CpfMask[1..][1..][1..][1..] == [];
  }

  lemma DateMaskShape()
    ensures WellFormedMask(DateMask) && Capacity(DateMask) == 8 && Width(DateMask) == 10
  {
    assert DateMask[1..][1..][1..] == [];
  }

  lemma WhatsAppMaskShape()
    ensures WellFormedMask(WhatsAppMask) && Capacity(WhatsAppMask) == 11 && Width(WhatsAppMask) == 15
  {
    assert WhatsAppMask[1..][1..][1..] == [];
  }

  // ---------------------------------------------------------------------------
  // The masks as written equal the reference

  /** Filling a group that the remaining digits `n[i..]` overflow: the group
      takes its width and the rest of the mask takes the remainder. */
  lemma FillAt(g: Group, rest: Mask, n: string, i: nat)
    requires i + g.width < |n|
    ensures Fill([g] + rest, n[i..]) == g.sep + n[i..i + g.width] + Fill(rest, n[i + g.width..])
  {
    assert ([g] + rest)[1..] == rest;
    assert n[i..][..g.width] == n[i..i + g.width];
    assert n[i..][g.width..] == n[i + g.width..];
  }

  /** Filling a group that takes all the remaining digits `n[i..]`. */
  lemma FillTo(g: Group, rest: Mask, n: string, i: nat)
    requires i < |n| <= i + g.width
    ensures Fill([g] + rest, n[i..]) == g.sep + n[i..]
  {
  }

  /** Filling the last group of a mask from `n[i..]`: it takes at most its width. */
  lemma FillLast(g: Group, n: string, i: nat)
    requires i < |n|
    ensures Fill([g], n[i..]) == g.sep + Slice(n, i, i + g.width)
  {
    var r: Mask := [];
    assert [g] == [g] + r;
    if |n| > i + g.width {
      FillAt(g, r, n, i);
    } else {
      FillTo(g, r, n, i);
    }
  }

  /** The last two CPF groups, filled from the seventh digit on. */
  lemma CpfFromSix(n: string)
    requires |n| > 6
    ensures Fill([Group(".", 3), Group("-", 2)], n[6..])
            == if |n| <= 9 then "." + n[6..] else "." + n[6..9] + ("-" + Slice(n, 9, 11))
  {
    var g3, g4 := Group(".", 3), Group("-", 2);
    assert [g3, g4] == [g3] + [g4];
    if |n| <= 9 {
      FillTo(g3, [g4], n, 6);
    } else {
      FillAt(g3, [g4], n, 6);
      FillLast(g4, n, 9);
    }
  }

  /** The last three CPF groups, filled from the fourth digit on. */
  lemma CpfFromThree(n: string)
    requires |n| > 3
    ensures Fill([Group(".", 3), Group(".", 3), Group("-", 2)], n[3..])
            == if |n| <= 6 then "." + n[3..] else "." + n[3..6] + Fill([Group(".", 3), Group("-", 2)], n[6..])
  {
    var g2, g3, g4 := Group(".", 3), Group(".", 3), Group("-", 2);
    assert [g2, g3, g4] == [g2] + [g3, g4];
    if |n| <= 6 {
      FillTo(g2, [g3, g4], n, 3);
    } else {
      FillAt(g2, [g3, g4], n, 3);
    }
  }

  lemma CpfLayoutMatchesMask(n: string)
    ensures CpfLayout(n) == Fill(CpfMask, n)
  {
    var g1, g2, g3, g4 := Group("", 3), Group(".", 3), Group(".", 3), Group("-", 2);
    assert CpfMask == [g1] + [g2, g3, g4];
    assert n[0..] == n;
    if 0 < |n| <= 3 {
      FillTo(g1, [g2, g3, g4], n, 0);
    } else if 3 < |n| {
      FillAt(g1, [g2, g3, g4], n, 0);
      assert Fill(CpfMask, n) == n[..3] + Fill([g2, g3, g4], n[3..]);
      CpfFromThree(n);
      if 6 < |n| {
        CpfFromSix(n);
      }
    }
  }

  lemma FormatCpfMatchesMask(value: string)
    ensures FormatCPF(value) == Fill(CpfMask, Digits(value))
  {
    CpfLayoutMatchesMask(Digits(value));
  }

  lemma FormatDateMatchesMask(value: string)
    ensures FormatDate(value) == Fill(DateMask, Digits(value))
  {
    var n := Digits(value);
    var g1, g2, g3 := Group("", 2), Group("/", 2), Group("/", 4);
    assert DateMask == [g1] + [g2, g3];
    assert [g2, g3] == [g2] + [g3];
    assert n[0..] == n;
    if 0 < |n| <= 2 {
      FillTo(g1, [g2, g3], n, 0);
    } else if 2 < |n| {
      FillAt(g1, [g2, g3], n, 0);
      if |n| <= 4 {
        FillTo(g2, [g3], n, 2);
      } else {
        FillAt(g2, [g3], n, 2);
        FillLast(g3, n, 4);
      }
    }
  }

  /** The last two phone groups, filled from the third digit on. */
  lemma WhatsAppFromTwo(n: string)
    requires |n| > 2
    ensures Fill([Group(") ", 5), Group("-", 4)], n[2..])
            == if |n| <= 7 then ") " + n[2..]
               else if |n| <= 11 then ") " + n[2..7] + ("-" + n[7..])
               else ") " + n[2..7] + ("-" + n[7..11])
  {
    var g2, g3 := Group(") ", 5), Group("-", 4);
    assert [g2, g3] == [g2] + [g3];
    if |n| <= 7 {
      FillTo(g2, [g3], n, 2);
    } else {
      FillAt(g2, [g3], n, 2);
      FillLast(g3, n, 7);
      assert Slice(n, 7, 11) == if |n| <= 11 then n[7..] else n[7..11];
    }
  }

  lemma WhatsAppLayoutMatchesMask(n: string)
    ensures WhatsAppLayout(n) == Fill(WhatsAppMask, n)
  {
    var g1, g2, g3 := Group("(", 2), Group(") ", 5), Group("-", 4);
    assert WhatsAppMask == [g1] + [g2, g3];
    assert n[0..] == n;
    if 0 < |n| <= 2 {
      FillTo(g1, [g2, g3], n, 0);
    } else if 2 < |n| {
      FillAt(g1, [g2, g3], n, 0);
      WhatsAppFromTwo(n);
    }
  }

  lemma FormatWhatsAppMatchesMask(value: string)
    ensures FormatWhatsApp(value) == Fill(WhatsAppMask, Digits(value))
  {
    WhatsAppLayoutMatchesMask(Digits(value));
  }

  // ---------------------------------------------------------------------------
  // Mask properties of the three formatters

  /** The CPF mask keeps the first 11 digits, in order, in at most 14 characters. */
  lemma CpfDigitsAndLength(value: string)
    ensures Digits(FormatCPF(value)) == Take(Digits(value), 11)
    ensures |FormatCPF(value)| <= 14
  {
    FormatCpfMatchesMask(value);
    CpfMaskShape();
    MaskKeepsLeadingDigits(CpfMask, value);
    FillLength(CpfMask, Digits(value));
  }

  lemma CpfIdempotent(value: string)
    ensures FormatCPF(FormatCPF(value)) == FormatCPF(value)
  {
    FormatCpfMatchesMask(value);
    FormatCpfMatchesMask(FormatCPF(value));
    CpfMaskShape();
    MaskIdempotent(CpfMask, value);
  }

  /** The date mask keeps the first 8 digits, in order, in at most 10 characters. */
  lemma DateDigitsAndLength(value: string)
    ensures Digits(FormatDate(value)) == Take(Digits(value), 8)
    ensures |FormatDate(value)| <= 10
  {
    FormatDateMatchesMask(value);
    DateMaskShape();
    MaskKeepsLeadingDigits(DateMask, value);
    FillLength(DateMask, Digits(value));
  }

  lemma DateIdempotent(value: string)
    ensures FormatDate(FormatDate(value)) == FormatDate(value)
  {
    FormatDateMatchesMask(value);
    FormatDateMatchesMask(FormatDate(value));
    DateMaskShape();
    MaskIdempotent(DateMask, value);
  }

  /** The phone mask keeps the first 11 digits, in order, in at most 15 characters. */
  lemma WhatsAppDigitsAndLength(value: string)
    ensures Digits(FormatWhatsApp(value)) == Take(Digits(value), 11)
    ensures |FormatWhatsApp(value)| <= 15
  {
    FormatWhatsAppMatchesMask(value);
    WhatsAppMaskShape();
    MaskKeepsLeadingDigits(WhatsAppMask, value);
    FillLength(WhatsAppMask, Digits(value));
  }

  lemma WhatsAppIdempotent(value: string)
    ensures FormatWhatsApp(FormatWhatsApp(value)) == FormatWhatsApp(value)
  {
    FormatWhatsAppMatchesMask(value);
    FormatWhatsAppMatchesMask(FormatWhatsApp(value));
    WhatsAppMaskShape();
    MaskIdempotent(WhatsAppMask, value);
  }

  /** Where the CPF separators appear, by number of digits typed. */
  lemma CpfSeparators(value: string)
    ensures FormatCPF(value) == [] <==> Digits(value) == []
    ensures '.' in FormatCPF(value) <==> |Digits(value)| > 3
    ensures '-' in FormatCPF(value) <==> |Digits(value)| > 9
  {
    var n := Digits(value);
    assert forall c :: c in n ==> IsDigit(c);
  }

  /** Where the date separators appear, by number of digits typed. */
  lemma DateSeparators(value: string)
    ensures FormatDate(value) == [] <==> Digits(value) == []
    ensures '/' in FormatDate(value) <==> |Digits(value)| > 2
  {
    var n := Digits(value);
    assert forall c :: c in n ==> IsDigit(c);
  }

  /** Where the phone punctuation appears, by number of digits typed: the
      parenthesis opens with the first digit, closes once there are more than
      two, and the dash follows the seventh digit once there are more than seven. */
  lemma WhatsAppSeparators(value: string)
    ensures FormatWhatsApp(value) == [] <==> Digits(value) == []
    ensures Digits(value) != [] ==> FormatWhatsApp(value)[0] == '('
    ensures ')' in FormatWhatsApp(value) <==> |Digits(value)| > 2
    ensures '-' in FormatWhatsApp(value) <==> |Digits(value)| > 7
  {
    var n := Digits(value);
    assert forall c :: c in n ==> IsDigit(c);
  }
}
