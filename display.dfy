/**
 * What a task puts on the screen: a message variant and the count formatted
 * by sprintf("%d/%d", count, MAX_USUARIOS) into a 10-byte buffer. The
 * drawing itself (fonts, coordinates, the I2C transfer) is not modelled.
 */
module Display {
  import opened Wrappers
  import opened Board

  /** The four screens the tasks draw. */
  datatype Message = EntryOk | Full | ExitOk | ResetDone

  /** The line drawn under the title. */
  function Headline(m: Message): string
  {
    match m
    case EntryOk => "Entrada OK!"
    case Full => "Esta cheio!"
    case ExitOk => "Saida OK!"
    case ResetDone => "RESET"
  }

  /** The bottom line. */
  function Footer(m: Message): string
  {
    match m
    case EntryOk => "Bem-vindo(a)!"
    case Full => "Aguarde saidas"
    case ExitOk => "Volte sempre!"
    case ResetDone => "Aguardando..."
  }

  predicate IsDigit(c: char)
  {
    '0' <= c <= '9'
  }

  predicate IsDigits(s: string)
  {
    forall i :: 0 <= i < |s| ==> IsDigit(s[i])
  }

  function DigitChar(d: nat): (c: char)
    requires d < 10
    ensures IsDigit(c)
  {
    (48 + d) as char
  }

  function DigitValue(c: char): (d: nat)
    requires IsDigit(c)
    ensures d < 10
  {
    c as int - 48
  }

  /** The decimal text "%d" prints for n: no sign, no leading zeros. */
  function Decimal(n: nat): (s: string)
    ensures 1 <= |s| && IsDigits(s)
    ensures |s| > 1 ==> s[0] != '0'
  {
    if n < 10 then [DigitChar(n)] else Decimal(n / 10) + [DigitChar(n % 10)]
  }

  /** Reads a string of decimal digits back as a number. */
  function ParseDecimal(s: string): nat
    requires IsDigits(s)
  {
    if s == [] then 0 else 10 * ParseDecimal(s[..|s| - 1]) + DigitValue(s[|s| - 1])
  }

  lemma {:induction false} ParseDecimalInvertsDecimal(n: nat)
    ensures ParseDecimal(Decimal(n)) == n
  {
    var s := Decimal(n);
    if n < 10 {
      assert s[..0] == [];
    } else {
      assert s[..|s| - 1] == Decimal(n / 10);
      ParseDecimalInvertsDecimal(n / 10);
    }
  }

  function Pow10(k: nat): (p: nat)
    ensures p >= 1
  {
    if k == 0 then 1 else 10 * Pow10(k - 1)
  }

  /** n prints in at most k digits exactly when n < 10^k. */
  lemma {:induction false} DecimalLength(n: nat, k: nat)
    requires k >= 1
    ensures |Decimal(n)| <= k <==> n < Pow10(k)
  {
    if n < 10 {
      PowAtLeastTen(k);
    } else if k == 1 {
      assert |Decimal(n)| == |Decimal(n / 10)| + 1;
    } else {
      DecimalLength(n / 10, k - 1);
      assert n / 10 < Pow10(k - 1) <==> n < 10 * Pow10(k - 1);
    }
  }

  lemma {:induction false} PowAtLeastTen(k: nat)
    requires k >= 1
    ensures Pow10(k) >= 10
  {
    if k > 1 {
      PowAtLeastTen(k - 1);
    }
  }

  /**
   * The text "<count>/<MAX_USUARIOS>" written into the count buffer: a
   * reader of the screen sees exactly the count it was made from.
   */
  function CountText(count: nat): (s: string)
    ensures ShownCount(s) == Some(count)
  {
    var suffix := "/" + Decimal(MaxUsers);
    var s := Decimal(count) + suffix;
    assert s[..|s| - |suffix|] == Decimal(count);
    assert s[|s| - |suffix|..] == suffix;
    ParseDecimalInvertsDecimal(count);
    s
  }

  /** The count a reader of the screen sees in a count text, if it is one. */
  function ShownCount(s: string): Option<nat>
  {
    var suffix := "/" + Decimal(MaxUsers);
    if |s| > |suffix| && s[|s| - |suffix|..] == suffix && IsDigits(s[..|s| - |suffix|])
    then Some(ParseDecimal(s[..|s| - |suffix|]))
    else None
  }

  /** sprintf writes the text and a terminating NUL: it fits the buffer exactly for counts below 10^6. */
  lemma CountTextFitsBuffer(count: nat)
    ensures |CountText(count)| + 1 <= CountBufferSize <==> count < Pow10(6)
  {
    assert Decimal(MaxUsers) == "10";
    DecimalLength(count, 6);
  }

  /** Every count the counter can hold prints in at most five characters. */
  lemma CountTextShort(count: nat)
    requires count <= MaxUsers
    ensures |CountText(count)| <= 5
    ensures |CountText(count)| + 1 <= CountBufferSize
  {
    assert Decimal(MaxUsers) == "10";
    DecimalLength(count, 2);
    assert Pow10(2) == 100;
  }
}
