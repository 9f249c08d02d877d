/**
 Host numbers and generated host names of
 assignment4/kubespray/contrib/inventory_builder/inventory.py.
 */
module HostNames {
  import opened Options
  import opened Decimal
  import opened Text

  /** The digits at the end of s. */
  function TrailingDigits(s: string): (digits: string)
    ensures AllDigits(digits)
  {
    if s == "" || !IsDigit(s[|s| - 1]) then "" else TrailingDigits(s[..|s| - 1]) + [s[|s| - 1]]
  }

  /** host.split('.')[0] */
  function ShortName(host: string): string {
    SplitAll(host, '.')[0]
  }

  // In a regular expression, `$` also matches before a newline at the end.
  function BeforeFinalNewline(s: string): string {
    if s != "" && s[|s| - 1] == '\n' then s[..|s| - 1] else s
  }

  /** get_host_id, none for its ValueError. */
  function HostId(host: string): Option<nat> {
    var digits := TrailingDigits(BeforeFinalNewline(ShortName(host)));
    if digits == "" then None else Some(Value(digits))
  }

  /** "{0}{1}".format(HOST_PREFIX, next_host_id) */
  function GeneratedName(prefix: string, id: nat): string {
    prefix + Numeral(id)
  }

  lemma {:induction false} TrailingDigitsOf(s: string, digits: string)
    requires AllDigits(digits)
    ensures TrailingDigits(s + digits) == TrailingDigits(s) + digits
  {
    if digits == "" {
      assert s + digits == s;
    } else {
      var last := |digits| - 1;
      assert (s + digits)[..|s + digits| - 1] == s + digits[..last];
      TrailingDigitsOf(s, digits[..last]);
    }
  }

  /** A generated name has a number, at least the one it was made from (digits of the prefix count). */
  lemma IdOfGenerated(prefix: string, id: nat)
    requires Free(prefix, '.')
    ensures HostId(GeneratedName(prefix, id)).Some? && HostId(GeneratedName(prefix, id)).value >= id
  {
    var name := GeneratedName(prefix, id);
    SplitAllOfFree(name, '.');
    TrailingDigitsOf(prefix, Numeral(id));
    ValueOfSuffix(TrailingDigits(prefix), Numeral(id));
    ValueOfNumeral(id);
  }

  lemma GeneratedNamesDiffer(prefix: string, a: nat, b: nat)
    ensures GeneratedName(prefix, a) == GeneratedName(prefix, b) <==> a == b
  {
    NumeralsDiffer(a, b);
    assert GeneratedName(prefix, a)[|prefix|..] == Numeral(a);
    assert GeneratedName(prefix, b)[|prefix|..] == Numeral(b);
  }
}
