/** The options of one configuration section, as the monitors read and write them. */
module Configuration {
  import opened Decimal
  import opened Hysteresis

  type Config = map<string, string>

  function Option(uci: Config, name: string, fallback: string): string {
    if name in uci then uci[name] else fallback
  }

  /** An option read with strtoul through a buffer of 16 bytes into an unsigned int. */
  function Unsigned(uci: Config, name: string, fallback: string): nat {
    StrToUL(Truncated(Option(uci, name, fallback), LOAD_BUFFER)) % TWO_32
  }

  /** An option read with strtol and cut to int, true when not zero. */
  function Flag(uci: Config, name: string): bool {
    StrToL(Truncated(Option(uci, name, "0"), LOAD_BUFFER)) % TWO_32 != 0
  }

  function LoadThresholds(uci: Config): Thresholds {
    Thresholds(Unsigned(uci, "critical_rise_threshold", "80"), Unsigned(uci, "critical_fall_threshold", "60"))
  }

  /** A number stored with "%u" is the number loaded, under any name. */
  lemma StoredNumber(uci: Config, name: string, fallback: string, n: nat)
    requires n < TWO_32 && name in uci && uci[name] == Print(n)
    ensures Unsigned(uci, name, fallback) == n
  {
    FitsFifteen(n);
    UnsignedRoundTrip(n, TWO_64);
    ModuloWord(n, TWO_64);
    ModuloWord(n, TWO_32);
  }

  /** A flag stored as a number is set exactly when the number is not zero. */
  lemma StoredFlag(uci: Config, name: string, n: int)
    requires name in uci && uci[name] == Print(n) && -TWO_31 <= n < TWO_31
    ensures Flag(uci, name) <==> n != 0
  {
    FitsFifteen(n);
    LongRoundTrip(n, TWO_64);
    ModuloWord(n, TWO_32);
  }

  /** The stored thresholds are those loaded, each from its own option, and 80 and 60 when none are stored. */
  lemma StoredThresholds(uci: Config, th: Thresholds)
    requires th.rise < TWO_32 && th.fall < TWO_32
    requires "critical_rise_threshold" in uci && uci["critical_rise_threshold"] == Print(th.rise)
    requires "critical_fall_threshold" in uci && uci["critical_fall_threshold"] == Print(th.fall)
    ensures LoadThresholds(uci) == th
  {
    StoredNumber(uci, "critical_rise_threshold", "80", th.rise);
    StoredNumber(uci, "critical_fall_threshold", "60", th.fall);
  }

  lemma DefaultThresholds()
    ensures LoadThresholds(map[]) == Thresholds(80, 60)
  {
    var uci: Config := map["critical_rise_threshold" := "80", "critical_fall_threshold" := "60"];
    assert Print(80) == "80" && Print(60) == "60";
    StoredThresholds(uci, Thresholds(80, 60));
  }

  /** The timer waits the given number of seconds, up to 49 days. */
  lemma MillisecondsAreSeconds(seconds: nat)
    requires seconds <= 4_294_967
    ensures Milliseconds(seconds) == 1000 * seconds
  {
  }

  function RiseText(uci: Config): string {
    Option(uci, "critical_rise_time", "0")
  }

  function FallText(uci: Config): string {
    Option(uci, "critical_fall_time", "0")
  }

  /** Seconds to the milliseconds given to the timer, in 32 bits. */
  function Milliseconds(seconds: nat): nat {
    seconds * 1000 % TWO_32
  }

  /** The administrator may have edited anything but the two times. */
  predicate SameTimes(a: Config, b: Config) {
    RiseText(a) == RiseText(b) && FallText(a) == FallText(b)
  }

  /** Nothing but the two times was written. */
  predicate OthersKept(a: Config, b: Config) {
    a - {"critical_rise_time", "critical_fall_time"} == b - {"critical_rise_time", "critical_fall_time"}
  }
}
