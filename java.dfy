/** The few facts of the Java language that the catalog service relies on:
    references that may be null, the 32-bit `int`, string concatenation
    with a null operand, and the runtime exceptions the service does not catch. */
module Java {

  /** A reference that may be null: `None` is Java's `null`. */
  datatype Option<+T> = None | Some(value: T)

  /** A `java.lang.String` reference. */
  type JString = Option<string>

  const IntMin: int := -0x8000_0000
  const IntMax: int := 0x7fff_ffff

  /** A value of Java's primitive `int`. */
  type Int32 = x: int | IntMin <= x <= IntMax

  /** An `Integer` query parameter: absent parameters arrive as `null`. */
  type JInteger = Option<Int32>

  /** The unchecked exceptions that escape the service's `catch (DynamoDbException e)`. */
  datatype JavaException = NullPointer | IndexOutOfBounds | IllegalArgument

  /** A value, or an exception that leaves the method. */
  datatype Outcome<+T> = Done(value: T) | Thrown(exception: JavaException)

  /** `int` addition and multiplication keep the low 32 bits of the exact
      result (two's complement, section 15.17.1 and 15.18.2 of the Java
      Language Specification): the result is the one `Int32` congruent to
      the exact value modulo 2^32. */
  function Wrap(x: int): (r: Int32)
    ensures (x - r) % 0x1_0000_0000 == 0
    ensures IntMin <= x <= IntMax ==> r == x
  {
    var q := (x - IntMin) / 0x1_0000_0000;
    assert x - ((x - IntMin) % 0x1_0000_0000 + IntMin) == q * 0x1_0000_0000;
    (x - IntMin) % 0x1_0000_0000 + IntMin
  }

  function Min(a: int, b: int): (r: int)
    ensures r <= a && r <= b && (r == a || r == b)
  {
    if a < b then a else b
  }

  /** `s != null && !s.isEmpty()` */
  predicate Present(s: JString) {
    s.Some? && s.value != ""
  }

  /** The text a `String` operand contributes to `+`: `"null"` for a null
      reference (section 5.1.11 of the Java Language Specification). */
  function Text(s: JString): (r: string)
    ensures s.Some? ==> r == s.value
    ensures s.None? ==> r == "null"
  {
    match s
    case None => "null"
    case Some(v) => v
  }
}
