/** strconv.Itoa on naturals: how task ids and thread ids are written. */
module Decimal {
  import opened Records

  function Itoa(n: nat): (s: Text)
    ensures s != []
  {
    var digit := [(48 + n % 10) as byte];
    if n < 10 then digit else Itoa(n / 10) + digit
  }

  function ParseNat(s: Text): nat {
    if s == [] then 0
    else
      var last := s[|s| - 1] as int;
      10 * ParseNat(s[..|s| - 1]) + if 48 <= last then last - 48 else 0
  }

  lemma {:induction false} ParseItoa(n: nat)
    ensures ParseNat(Itoa(n)) == n
  {
    var s := Itoa(n);
    if n < 10 {
      assert s[..|s| - 1] == [];
    } else {
      assert s[..|s| - 1] == Itoa(n / 10);
      ParseItoa(n / 10);
    }
  }

  /** Distinct numbers have distinct decimal names. */
  lemma ItoaInjective(m: nat, n: nat)
    requires Itoa(m) == Itoa(n)
    ensures m == n
  {
    ParseItoa(m);
    ParseItoa(n);
  }

  /** k is the name of one of the numbers below n. */
  predicate IsId(k: Text, n: nat) {
    ParseNat(k) < n && Itoa(ParseNat(k)) == k
  }

  lemma IdOf(i: nat, n: nat)
    ensures IsId(Itoa(i), n) <==> i < n
  {
    ParseItoa(i);
  }
}
