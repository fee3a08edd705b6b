/**
 * The JavaScript and Node.js built-ins the application calls but whose behaviour
 * is not modelled here: `String.prototype.localeCompare`, `Number`, `parseFloat`,
 * zod's e-mail check and scrypt. They are passed to the model as function values.
 */
module Runtime {
  import opened Numbers
  import opened Credentials

  /** A consistent string collation: sign-consistent and transitive, as `localeCompare` is. */
  ghost predicate IsCollation(compare: (string, string) -> int) {
    && (forall a, b :: compare(a, b) > 0 ==> compare(b, a) < 0)
    && (forall a, b :: compare(a, b) < 0 ==> compare(b, a) > 0)
    && (forall a, b, c :: compare(a, b) <= 0 && compare(b, c) <= 0 ==> compare(a, c) <= 0)
  }

  type Collator = compare: (string, string) -> int | IsCollation(compare)
    witness (a: string, b: string) => 0

  datatype Builtins = Builtins(
    localeCompare: Collator,
    toNumber: string -> Num,
    parseFloat: string -> Num,
    isEmail: string -> bool,
    scrypt: Kdf)
}
