/** The library code the binder and the flag generator call but that is
    not part of this model: `strconv.ParseBool/ParseInt/ParseUint/
    ParseFloat`, `time.ParseDuration`, `time.Parse`, `uuid.FromString` and
    `unicode.ToLower`.
    Each is a field of `Parsers`, so that every lemma holds for every
    implementation of them; the values they produce are kept abstract. */
module Foreign {
  import opened Wrappers

  /** A float64, known only by its IEEE-754 bit pattern (all zero bits is +0.0). */
  datatype FloatBits = FloatBits(bits: bv64)

  /** A time.Time, known only by an abstract stamp; the zero stamp is
      time.Time{}. */
  datatype Instant = Instant(stamp: int)

  /** A uuid.UUID, its sixteen bytes. */
  datatype UUIDValue = UUIDValue(bytes: seq<bv8>)

  const ZeroFloat := FloatBits(0)
  const ZeroInstant := Instant(0)
  const NilUUID := UUIDValue(seq(16, _ => 0))

  /** time.RFC3339, the layout the binder falls back to. */
  const RFC3339 := "2006-01-02T15:04:05Z07:00"

  /** The error a strconv parser reports next to its value. */
  datatype ConvError = NoError | ErrSyntax | ErrRange

  /** What a strconv parser returns: a value and an error, both always present. */
  datatype Conv<T> = Conv(value: T, err: ConvError)

  datatype Parsers = Parsers(
    parseBool: string -> Conv<bool>,
    parseInt: string -> Conv<int>,
    parseUint: string -> Conv<nat>,
    parseFloat: string -> Conv<FloatBits>,
    parseDuration: string -> Option<int>,
    parseTime: (string, string) -> Option<Instant>,
    parseUUID: string -> Option<UUIDValue>,
    toLower: char -> char)

  /** What the strconv documentation promises about the value returned next
      to a syntax error: false for ParseBool, zero for ParseInt and
      ParseUint. */
  ghost predicate StrconvContract(p: Parsers)
  {
    && (forall s :: p.parseBool(s).err != NoError ==> p.parseBool(s).value == false)
    && (forall s :: p.parseInt(s).err == ErrSyntax ==> p.parseInt(s).value == 0)
    && (forall s :: p.parseUint(s).err == ErrSyntax ==> p.parseUint(s).value == 0)
  }
}
