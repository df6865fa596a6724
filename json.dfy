/** JSON values as the pages and scripts of the inventory tracker see them once a
    response body has been parsed. Only the shapes the store document uses are
    modelled: null, undefined (a missing property), strings and plain objects. */
module Json {

  datatype Option<T> = None | Some(value: T)

  datatype Value =
    | Null
    | Undefined
    | Str(s: string)
    | Obj(fields: map<string, Value>)

  /** The store document held in the remote bin: store name to that store's entry. */
  type Document = map<string, Value>

  /** JavaScript truthiness, restricted to the values above. */
  predicate Truthy(v: Value) {
    match v
    case Null => false
    case Undefined => false
    case Str(s) => s != ""
    case Obj(_) => true
  }

  /** Property access `m[k]` on a plain object: undefined when the key is absent. */
  function Get(m: map<string, Value>, k: string): Value {
    if k in m then m[k] else Undefined
  }

  /** The decimal digit character for `d`. */
  function DigitChar(d: nat): (c: char)
    requires d < 10
    ensures '0' <= c <= '9'
    ensures c as int - '0' as int == d
  {
    ('0' as int + d) as char
  }

  predicate AllDigits(s: string) {
    forall j :: 0 <= j < |s| ==> '0' <= s[j] <= '9'
  }

  /** `String(n)` for a natural number: its decimal representation, no leading zeros. */
  function Decimal(n: nat): (s: string)
    ensures |s| >= 1 && AllDigits(s)
    ensures n < 10 <==> |s| == 1
  {
    if n < 10 then [DigitChar(n)] else Decimal(n / 10) + [DigitChar(n % 10)]
  }

  /** Distinct numbers have distinct decimal representations. */
  lemma {:induction false} DecimalInjective(a: nat, b: nat)
    requires Decimal(a) == Decimal(b)
    ensures a == b
  {
    if a >= 10 && b >= 10 {
      var da, db := Decimal(a), Decimal(b);
      assert da[|da| - 1] == DigitChar(a % 10) && db[|db| - 1] == DigitChar(b % 10);
      assert Decimal(a / 10) == da[..|da| - 1] == db[..|db| - 1] == Decimal(b / 10);
      DecimalInjective(a / 10, b / 10);
    } else if a < 10 && b < 10 {
      assert Decimal(a)[0] == DigitChar(a) && Decimal(b)[0] == DigitChar(b);
    }
  }

  /** The index keys "0", "1", ..., String(n - 1). */
  function IndexKeys(n: nat): set<string> {
    if n == 0 then {} else IndexKeys(n - 1) + {Decimal(n - 1)}
  }

  /** Every index key is a numeral. */
  lemma {:induction false} IndexKeysDigits(n: nat)
    ensures forall k :: k in IndexKeys(n) ==> AllDigits(k)
  {
    if n > 0 {
      IndexKeysDigits(n - 1);
      assert IndexKeys(n) == IndexKeys(n - 1) + {Decimal(n - 1)};
    }
  }

  /** The own enumerable properties of a string primitive: one per character,
      keyed by its index ("0", "1", ...), holding that one-character string. */
  function CharacterEntries(t: string): map<string, Value>
    decreases |t|
  {
    if t == [] then map[]
    else CharacterEntries(t[..|t| - 1])[Decimal(|t| - 1) := Str([t[|t| - 1]])]
  }

  /** A string has exactly its index keys, each holding the character at that index. */
  lemma {:induction false} CharacterEntriesShape(t: string)
    ensures CharacterEntries(t).Keys == IndexKeys(|t|)
    ensures forall i :: 0 <= i < |t| ==> Decimal(i) in CharacterEntries(t) && CharacterEntries(t)[Decimal(i)] == Str([t[i]])
    decreases |t|
  {
    if t != [] {
      var n := |t| - 1;
      var prev := CharacterEntries(t[..n]);
      CharacterEntriesShape(t[..n]);
      assert CharacterEntries(t) == prev[Decimal(n) := Str([t[n]])];
      forall i | 0 <= i < |t| ensures Decimal(i) in CharacterEntries(t) && CharacterEntries(t)[Decimal(i)] == Str([t[i]]) {
        if i < n {
          if Decimal(i) == Decimal(n) {
            DecimalInjective(i, n);
          }
          assert t[..n][i] == t[i];
        }
      }
    }
  }

  /** Object spread `{...v}`, which is also what `Object.keys(v || {})` enumerates:
      an object's own properties, a string's characters, nothing for null or undefined. */
  function Spread(v: Value): (m: map<string, Value>)
    ensures v.Obj? ==> m == v.fields
    ensures v.Str? ==> m.Keys == IndexKeys(|v.s|)
    ensures !Truthy(v) ==> m == map[]
  {
    match v
    case Null => map[]
    case Undefined => map[]
    case Str(t) => CharacterEntriesShape(t); CharacterEntries(t)
    case Obj(fields) => fields
  }

  /** The shape `Date.prototype.toISOString` produces: `YYYY-MM-DDTHH:mm:ss.sssZ`, or the
      six-digit signed year form, so the `T` separator is always 14 places from the end. */
  predicate IsIsoTimestamp(t: string) {
    |t| >= 24 && t[|t| - 1] == 'Z' && t[|t| - 14] == 'T'
  }
}
