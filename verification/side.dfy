/** The `Side` enum: on which platform a renamed member exists. Its wire value
    is the ordinal, so the declaration order CLIENT, SERVER, BOTH fixes the codes
    0, 1 and 2. */
module Sides {
  import opened Wrappers
  import Text

  datatype Side = Client | Server | Both

  /** `Side.values()`: the variants in declaration order. */
  const Variants: seq<Side> := [Client, Server, Both]

  /** `toNumber()`, the ordinal: the position of `s` in `Variants`. */
  function ToNumber(s: Side): (n: nat)
    ensures n < |Variants| && Variants[n] == s
  {
    match s
    case Client => 0
    case Server => 1
    case Both => 2
  }

  /** `Side.from(value)`, that is `values()[value]`; `None` is the
      `ArrayIndexOutOfBoundsException` for a value outside 0..2. */
  function From(value: int): (r: Option<Side>)
    ensures r.Some? <==> 0 <= value <= 2
    ensures r.Some? ==> ToNumber(r.value) == value
  {
    if 0 <= value < |Variants| then Some(Variants[value]) else None
  }

  /** `Integer.toString(side.toNumber())`, the cell written for a side. */
  function Code(s: Side): (c: string)
    ensures Text.ParseInt(c) == Some(ToNumber(s))
    ensures |c| == 1 && !Text.IsBlank(c) && ',' !in c
  {
    Text.DigitString(ToNumber(s))
  }

  lemma FromTable()
    ensures From(0) == Some(Client) && From(1) == Some(Server) && From(2) == Some(Both)
  {
  }

  lemma FromToNumber(s: Side)
    ensures From(ToNumber(s)) == Some(s)
  {
  }

  lemma ToNumberFrom(n: int)
    requires 0 <= n <= 2
    ensures From(n).Some? && ToNumber(From(n).value) == n
  {
  }

  /** Reading a written side code gives the side back. */
  lemma CodeRoundTrip(s: Side)
    ensures match Text.ParseInt(Code(s)) case Some(n) => From(n) == Some(s) case None => false
  {
    FromToNumber(s);
  }
}
