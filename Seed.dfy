/**
 * The deterministic part of the seed script: the generators of a debtor's cpf, phone, name and
 * e-mail from its index, and the values the main loop derives from the debtor index `i` and the
 * contract index `c`. Indices are non-negative integers (the script uses 1..50 and 0..2).
 */
module Seed {
  import opened Digits

  /** generateCpf: the decimal text of 10000000000 + index. */
  function GenerateCpf(index: nat): (cpf: string)
    ensures AllDigits(cpf) && ParseDecimal(cpf) == 10000000000 + index
  {
    ParseDecimalString(10000000000 + index);
    DecimalString(10000000000 + index)
  }

  /** Distinct indices give distinct cpfs. */
  lemma CpfInjective(i: nat, j: nat)
    requires GenerateCpf(i) == GenerateCpf(j)
    ensures i == j
  {
  }

  lemma Pow10Facts()
    ensures Pow10(5) == 100000 && Pow10(6) == 1000000
    ensures Pow10(8) == 100000000 && Pow10(10) == 10000000000 && Pow10(11) == 100000000000
  {
    assert Pow10(1) == 10;
    assert Pow10(2) == 100;
    assert Pow10(3) == 1000;
    assert Pow10(4) == 10000;
    assert Pow10(5) == 100000;
    assert Pow10(6) == 1000000;
    assert Pow10(7) == 10000000;
    assert Pow10(8) == 100000000;
    assert Pow10(9) == 1000000000;
    assert Pow10(10) == 10000000000;
  }

  /** Up to index 89999999999 a cpf has the 11 digits of a Brazilian CPF. */
  lemma CpfHasElevenDigits(index: nat)
    requires index <= 89999999999
    ensures |GenerateCpf(index)| == 11
  {
    Pow10Facts();
    DecimalLength(10000000000 + index, 11);
  }

  /** String.prototype.slice(-n): the last n characters, or the whole string when it is shorter;
      since -0 is 0, slice(-0) is the whole string too. */
  function SliceLast(s: string, n: nat): (r: string)
    ensures |r| == if n == 0 || |s| <= n then |s| else n
    ensures r == s[|s| - |r|..]
  {
    if n == 0 || |s| <= n then s else s[|s| - n..]
  }

  /** generatePhone: "1199" followed by at most the last 8 digits of 100000 + index. */
  function GeneratePhone(index: nat): (phone: string)
    ensures 10 <= |phone| <= 12 && AllDigits(phone) && phone[..4] == "1199"
  {
    assert Pow10(5) == 100000 by { Pow10Facts(); }
    DecimalLengthAtLeast(100000 + index, 6);
    var digits := DecimalString(100000 + index);
    var tail := SliceLast(digits, 8);
    assert AllDigits(tail) by {
      forall k | 0 <= k < |tail| ensures IsDigit(tail[k]) {
        assert tail[k] == digits[|digits| - |tail| + k];
      }
    }
    var phone := "1199" + tail;
    assert forall k :: 4 <= k < |phone| ==> phone[k] == tail[k - 4];
    phone
  }

  /** Below index 900000 the number 100000 + index has six digits, all kept: the phone has 10 characters. */
  lemma PhoneHasTenCharacters(index: nat)
    requires index < 900000
    ensures GeneratePhone(index) == "1199" + DecimalString(100000 + index)
    ensures |GeneratePhone(index)| == 10
  {
    Pow10Facts();
    DecimalLength(100000 + index, 6);
  }

  /** While 100000 + index has at most 8 digits, slice(-8) keeps all of them. */
  lemma PhoneKeepsAllDigits(index: nat)
    requires index < 99900000
    ensures GeneratePhone(index) == "1199" + DecimalString(100000 + index)
    ensures GeneratePhone(index)[4..] == DecimalString(100000 + index)
  {
    assert Pow10(8) == 100000000 by { Pow10Facts(); }
    DecimalLengthAtMost(100000 + index, 8);
    SamePrefixSameRest("1199", GeneratePhone(index)[4..], DecimalString(100000 + index));
  }

  /** So on that range distinct indices give distinct phones. */
  lemma PhoneInjective(i: nat, j: nat)
    requires i < 99900000 && j < 99900000
    requires GeneratePhone(i) == GeneratePhone(j)
    ensures i == j
  {
    PhoneKeepsAllDigits(i);
    PhoneKeepsAllDigits(j);
    DecimalStringInjective(100000 + i, 100000 + j);
  }

  /** Equal strings with the same prefix have equal remainders. */
  lemma SamePrefixSameRest(p: string, a: string, b: string)
    requires p + a == p + b
    ensures a == b
  {
    assert a == (p + a)[|p|..];
  }

  /** Appending a zero to the decimal text of a positive n gives the text of 10n. */
  lemma DecimalTimesTen(n: nat)
    requires n >= 1
    ensures DecimalString(n * 10) == DecimalString(n) + ['0']
  {
    assert (n * 10) / 10 == n && (n * 10) % 10 == 0;
  }

  /** n followed by k zeros, that is n * 10^k (`ShiftedIsProduct`). Stated digit by digit so that
      the collision proof below works with a multiplication by ten at a time rather than unfolding
      the decimal text of a nine-digit literal. */
  function Shifted(n: nat, k: nat): (r: nat)
    ensures n >= 1 ==> r >= 1
  {
    if k == 0 then n else Shifted(n, k - 1) * 10
  }

  /** Shifting by k places multiplies by 10^k. */
  lemma {:induction false} ShiftedIsProduct(n: nat, k: nat)
    ensures Shifted(n, k) == n * Pow10(k)
  {
    if k > 0 {
      ShiftedIsProduct(n, k - 1);
      assert n * Pow10(k - 1) * 10 == n * (10 * Pow10(k - 1));
    }
  }

  /** Appending k zeros to the decimal text of a positive m gives the text of m * 10^k. */
  lemma {:induction false} ShiftedDecimal(m: nat, k: nat)
    requires m >= 1
    ensures DecimalString(Shifted(m, k)) == DecimalString(m) + seq(k, _ => '0')
  {
    if k > 0 {
      ShiftedDecimal(m, k - 1);
      DecimalTimesTen(Shifted(m, k - 1));
      assert DecimalString(m) + seq(k, _ => '0') == (DecimalString(m) + seq(k - 1, _ => '0')) + ['0'];
    }
  }

  /** Past that range the cut drops leading digits and phones collide: for m in 1..9, index
      m * 10^8 - 100000 gives "119900000000" (99900000 and 199900000 are two such indices). */
  lemma PhoneCollidesPastRange(m: nat)
    requires 1 <= m <= 9
    ensures Shifted(m, 8) == m * 100000000
    ensures GeneratePhone(Shifted(m, 8) - 100000) == "119900000000"
  {
    var n := Shifted(m, 8);
    assert n == m * 100000000 by {
      ShiftedIsProduct(m, 8);
      Pow10Facts();
    }
    ShiftedDecimal(m, 8);
    var zeros: string := seq(8, _ => '0');
    var digits := DecimalString(n);
    assert digits == [DigitChar(m)] + zeros;
    assert SliceLast(digits, 8) == zeros by {
      assert |digits| == 9;
      assert digits[1..] == zeros;
    }
    assert 100000 + (n - 100000) == n;
    assert GeneratePhone(n - 100000) == "1199" + zeros;
  }

  /** generateName: "Usuário Teste " and the index, which reads back from the rest of the name. */
  function GenerateName(index: nat): (name: string)
    ensures |name| > 14 && name[..14] == "Usuário Teste "
    ensures AllDigits(name[14..]) && ParseDecimal(name[14..]) == index
  {
    ParseDecimalString(index);
    var name := "Usuário Teste " + DecimalString(index);
    assert name[14..] == DecimalString(index);
    name
  }

  /** generateEmail: "teste", the index and "@teste.com"; the index reads back from the middle. */
  function GenerateEmail(index: nat): (email: string)
    ensures |email| > 15 && email[..5] == "teste" && email[|email| - 10..] == "@teste.com"
    ensures AllDigits(email[5..|email| - 10]) && ParseDecimal(email[5..|email| - 10]) == index
  {
    ParseDecimalString(index);
    var email := "teste" + DecimalString(index) + "@teste.com";
    assert email[5..|email| - 10] == DecimalString(index);
    email
  }

  /** The mother's name the seed gives debtor i: "Mãe Teste " and the index, which reads back. */
  function MotherName(i: nat): (name: string)
    ensures |name| > 10 && name[..10] == "Mãe Teste "
    ensures AllDigits(name[10..]) && ParseDecimal(name[10..]) == i
  {
    ParseDecimalString(i);
    var name := "Mãe Teste " + DecimalString(i);
    assert name[10..] == DecimalString(i);
    name
  }

  /** The index can be read back from a name and from an e-mail, so both are injective. */
  lemma NameAndEmailInjective(i: nat, j: nat)
    ensures GenerateName(i) == GenerateName(j) ==> i == j
    ensures GenerateEmail(i) == GenerateEmail(j) ==> i == j
    ensures MotherName(i) == MotherName(j) ==> i == j
  {
    if GenerateName(i) == GenerateName(j) {
      assert DecimalString(i) == GenerateName(i)[14..];
      assert DecimalString(j) == GenerateName(j)[14..];
      DecimalStringInjective(i, j);
    }
    if GenerateEmail(i) == GenerateEmail(j) {
      var e := GenerateEmail(i);
      assert DecimalString(i) == e[5..|e| - 10];
      assert DecimalString(j) == GenerateEmail(j)[5..|GenerateEmail(j)| - 10];
      DecimalStringInjective(i, j);
    }
    if MotherName(i) == MotherName(j) {
      assert DecimalString(i) == MotherName(i)[10..];
      assert DecimalString(j) == MotherName(j)[10..];
      DecimalStringInjective(i, j);
    }
  }

  /** trustLevel = (i % 5) + 1. */
  function TrustLevel(i: nat): (t: int)
    ensures 1 <= t <= 5
  {
    i % 5 + 1
  }

  /** The two strategies the seed creates. */
  datatype SeedStrategy = MaximizeRecovery | LoyalCustomer

  /** loyal_customer for a trust level of at least 4, maximize_recovery otherwise. */
  function AssignedStrategy(i: nat): (s: SeedStrategy)
    ensures s == LoyalCustomer <==> i % 5 == 3 || i % 5 == 4
  {
    if TrustLevel(i) >= 4 then LoyalCustomer else MaximizeRecovery
  }

  /** String.prototype.padStart(width, fill) with a one-character fill. */
  function PadStart(s: string, width: nat, fill: char): (r: string)
    ensures |r| == if |s| < width then width else |s|
    ensures r[|r| - |s|..] == s
    ensures forall k :: 0 <= k < |r| - |s| ==> r[k] == fill
  {
    if |s| >= width then s else seq(width - |s|, _ => fill) + s
  }

  /** The day of the birth date: (i % 28) + 1, padded to two digits. */
  function BirthDay(i: nat): (day: string)
    ensures |day| == 2 && AllDigits(day)
    ensures ParseDecimal(day) == i % 28 + 1
    ensures 1 <= ParseDecimal(day) <= 28
  {
    var n := i % 28 + 1;
    ParseDecimalString(n);
    if n < 10 then
      var day := PadStart(DecimalString(n), 2, '0');
      assert day == ['0', DigitChar(n)] && day[..1] == ['0'];
      day
    else
      assert Pow10(1) == 10 && Pow10(2) == 100;
      DecimalLength(n, 2);
      PadStart(DecimalString(n), 2, '0')
  }

  /** birth_date: a day of January 1980, in ISO form, the day being (i % 28) + 1. */
  function BirthDate(i: nat): (date: string)
    ensures |date| == 10 && date[..8] == "1980-01-"
    ensures AllDigits(date[8..]) && ParseDecimal(date[8..]) == i % 28 + 1
  {
    var date := "1980-01-" + BirthDay(i);
    assert date[8..] == BirthDay(i);
    date
  }

  /** The data the seed upserts for debtor i; the score is a random integer from 0 to 100. */
  datatype SeedDebtor = SeedDebtor(
    cpf: string,
    phone: string,
    email: string,
    fullName: string,
    birthDate: string,
    motherName: string,
    verified: bool,
    authorized: bool,
    trustLevel: int,
    score: int)

  /** The upsert data of debtor i: the cpf reads back as 10000000000 + i, the trust level lies in
      1..5, and even debtors are verified and authorized while odd ones are neither. */
  function SeedDebtorFor(i: nat, score: int): (d: SeedDebtor)
    ensures AllDigits(d.cpf) && ParseDecimal(d.cpf) == 10000000000 + i
    ensures 1 <= d.trustLevel <= 5
    ensures d.verified == d.authorized == (i % 2 == 0)
    ensures d.score == score
  {
    SeedDebtor(GenerateCpf(i), GeneratePhone(i), GenerateEmail(i), GenerateName(i), BirthDate(i),
               MotherName(i), i % 2 == 0, i % 2 == 0, TrustLevel(i), score)
  }

  /** The 50 seeded debtors have pairwise distinct upsert keys (cpfs), phones, e-mails and names;
      every cpf has 11 digits and every phone 10 characters. */
  lemma SeededDebtorsDistinct(i: nat, j: nat, si: int, sj: int)
    requires 1 <= i <= 50 && 1 <= j <= 50 && i != j
    ensures var a, b := SeedDebtorFor(i, si), SeedDebtorFor(j, sj);
            && a.cpf != b.cpf && a.phone != b.phone && a.email != b.email && a.fullName != b.fullName
            && |a.cpf| == 11 && |a.phone| == 10
  {
    if GenerateCpf(i) == GenerateCpf(j) { CpfInjective(i, j); }
    if GeneratePhone(i) == GeneratePhone(j) { PhoneInjective(i, j); }
    NameAndEmailInjective(i, j);
    CpfHasElevenDigits(i);
    PhoneHasTenCharacters(i);
  }

  /** totalValue = 500 + 5i + 50c. */
  function ContractTotal(i: nat, c: nat): (total: int)
    ensures i >= 1 ==> total >= 505
    ensures total >= 500 + 5 * i
  {
    500 + i * 5 + c * 50
  }

  /** original_balance = totalValue + 50. */
  function OriginalBalance(i: nat, c: nat): int {
    ContractTotal(i, c) + 50
  }

  /** A debtor's contracts have distinct totals, growing with the contract index. */
  lemma ContractTotalsIncrease(i: nat, c: nat, c': nat)
    requires c < c'
    ensures ContractTotal(i, c) + 50 <= ContractTotal(i, c')
  {
  }
}
