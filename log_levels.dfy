/** The severity scale of the logger (VSRL_IF.h:9). The enum's underlying
    values 0..9 give the order the engine's filter compares with `>=`. */
module LogLevels {
  import opened Wrappers

  datatype LogLevel = None | Debug | Info | Notice | Warn | Error | Crit | Alert | Fatal | Emerg

  /** The enum's underlying integer value. */
  function Ordinal(l: LogLevel): (n: nat)
    ensures n <= 9
    ensures n == 0 <==> l == None
  {
    match l
    case None => 0
    case Debug => 1
    case Info => 2
    case Notice => 3
    case Warn => 4
    case Error => 5
    case Crit => 6
    case Alert => 7
    case Fatal => 8
    case Emerg => 9
  }

  /** The level whose underlying value is `n`, if any. */
  function FromOrdinal(n: nat): (r: Option<LogLevel>)
    ensures r.Some? <==> n <= 9
    ensures r.Some? ==> Ordinal(r.value) == n
  {
    if n == 0 then Some(None)
    else if n == 1 then Some(Debug)
    else if n == 2 then Some(Info)
    else if n == 3 then Some(Notice)
    else if n == 4 then Some(Warn)
    else if n == 5 then Some(Error)
    else if n == 6 then Some(Crit)
    else if n == 7 then Some(Alert)
    else if n == 8 then Some(Fatal)
    else if n == 9 then Some(Emerg)
    else NoValue
  }

  lemma OrdinalRoundTrip(l: LogLevel)
    ensures FromOrdinal(Ordinal(l)) == Some(l)
  {
  }

  /** `a >= b` on the enum class: compares underlying values. */
  predicate AtLeast(a: LogLevel, b: LogLevel) {
    Ordinal(a) >= Ordinal(b)
  }

  /** The levels a line can be rendered for: underlying values 1..9 (VSRL.h:75-79). */
  predicate IsLoggable(l: LogLevel) {
    1 <= Ordinal(l) <= 9
  }

  /** `AtLeast` is a total order on the ten levels. */
  lemma AtLeastIsTotalOrder()
    ensures forall a :: AtLeast(a, a)
    ensures forall a, b :: AtLeast(a, b) && AtLeast(b, a) ==> a == b
    ensures forall a, b, c :: AtLeast(a, b) && AtLeast(b, c) ==> AtLeast(a, c)
    ensures forall a, b :: AtLeast(a, b) || AtLeast(b, a)
  {
    forall a, b | AtLeast(a, b) && AtLeast(b, a) ensures a == b {
      OrdinalRoundTrip(a);
      OrdinalRoundTrip(b);
    }
  }

  /** None is the bottom and Emerg the top of the scale, and only None is unloggable. */
  lemma LevelBounds(l: LogLevel)
    ensures AtLeast(l, None) && AtLeast(Emerg, l)
    ensures IsLoggable(l) <==> l != None
  {
  }
}
