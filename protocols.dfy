/**
 * The built-in protocol table: the decimal protocol numbers 0 to 19 of the
 * IANA "Assigned Internet Protocol Numbers" registry and their keywords, in
 * lower case (script.py:6-27).
 */
module Protocols {

  const ProtocolMap: map<string, string> := map[
    "0" := "hopopt",
    "1" := "icmp",
    "2" := "igmp",
    "3" := "ggp",
    "4" := "ip",
    "5" := "st",
    "6" := "tcp",
    "7" := "cbt",
    "8" := "egp",
    "9" := "igp",
    "10" := "bbn-rcc-mon",
    "11" := "nvp-ii",
    "12" := "pup",
    "13" := "argus",
    "14" := "emcon",
    "15" := "xnet",
    "16" := "chaos",
    "17" := "udp",
    "18" := "mux",
    "19" := "dcn-meas"
  ]

  function Digit(d: nat): char
    requires d < 10
  {
    ('0' as int + d) as char
  }

  /** The decimal numeral of `n`, without leading zeros. */
  function Decimal(n: nat): string {
    if n < 10 then [Digit(n)] else Decimal(n / 10) + [Digit(n % 10)]
  }

  /** Every numeral from 0 to 19 is a key of the table. */
  lemma NumeralsAreProtocols()
    ensures forall n: nat :: n < 20 ==> Decimal(n) in ProtocolMap
  {
    forall n: nat | n < 20 ensures Decimal(n) in ProtocolMap {
      if n < 10 {
        assert Decimal(n) == [Digit(n)];
      } else {
        assert n / 10 == 1 && n % 10 == n - 10;
        assert Decimal(1) == ['1'];
        assert Decimal(n) == ['1', Digit(n - 10)];
      }
    }
  }

  /** Every key of the table is a decimal numeral of one or two digits. */
  lemma ProtocolsAreNumerals()
    ensures forall s :: s in ProtocolMap ==> 1 <= |s| <= 2 && forall i :: 0 <= i < |s| ==> '0' <= s[i] <= '9'
  {
  }

  /** The numerals of 0 to 19, without leading zeros. */
  ghost function Numerals(): set<string> {
    set n: nat | n < 20 :: Decimal(n)
  }

  /** The keys of the table are exactly the numerals of 0 to 19: "01" or "20" is not a protocol number. */
  lemma ProtocolKeys()
    ensures ProtocolMap.Keys == Numerals()
  {
    forall s ensures s in ProtocolMap.Keys <==> s in Numerals() {
      if s in ProtocolMap.Keys {
        KeyDigits(s);
        var n := DecimalOfDigits(s);
      }
      if s in Numerals() {
        NumeralsAreProtocols();
      }
    }
  }

  lemma KeyDigits(s: string)
    requires s in ProtocolMap
    ensures 1 <= |s| <= 2
    ensures forall i :: 0 <= i < |s| ==> '0' <= s[i] <= '9'
    ensures |s| == 2 ==> s[0] == '1'
  {
  }

  /** A digit string of length one, or of length two that starts with '1', is the numeral of a number below 20. */
  lemma DecimalOfDigits(s: string) returns (n: nat)
    requires 1 <= |s| <= 2
    requires forall i :: 0 <= i < |s| ==> '0' <= s[i] <= '9'
    requires |s| == 2 ==> s[0] == '1'
    ensures n < 20 && Decimal(n) == s
  {
    if |s| == 1 {
      n := s[0] as int - '0' as int;
      assert s == [Digit(n)];
    } else {
      var d: nat := s[1] as int - '0' as int;
      n := 10 + d;
      assert n / 10 == 1 && n % 10 == d;
      assert Decimal(1) == ['1'];
      assert s == ['1', Digit(d)];
    }
  }

  /** Every protocol name is non-empty, so a resolved protocol is always truthy. */
  lemma ProtocolNamesNonEmpty()
    ensures forall s :: s in ProtocolMap ==> ProtocolMap[s] != ""
  {
  }
}
