/** The Python values a deferred computation produces and consumes, and the three
    accessors the evaluator applies to them: indexing (`v[k]`), attribute lookup
    (`getattr(v, name)`) and a call without arguments (`v()`). */
module Values {

  datatype Option<+T> = None | Some(value: T)

  /** An index or dictionary key: the model keeps Python's int and str keys. */
  datatype Key = IntKey(i: int) | StrKey(s: string)

  /** A Python value. Lists stand for lists and tuples; `Obj` is an object whose
      attributes are known by name; `Fn` is a callable, named by the user function
      it runs. */
  datatype Value =
    | PyNone
    | Bool(b: bool)
    | Int(i: int)
    | Str(s: string)
    | List(items: seq<Value>)
    | Dict(entries: map<Key, Value>)
    | Obj(attrs: map<string, Value>)
    | Fn(name: string)

  /** The exceptions the model distinguishes; `Raised` is whatever a user function raises. */
  datatype Exception =
    | IndexError
    | KeyError(key: Key)
    | AttributeError(name: string)
    | TypeError
    | Raised(payload: Value)

  /** The outcome of a Python expression: a value, or the exception it raised. */
  datatype Outcome<+T> = Ok(value: T) | Err(error: Exception)

  /** The user functions of a graph, as seen from the evaluator: given the function's
      name, its positional arguments and its keyword arguments (in order), the
      function returns a value or raises. Nothing else about them is known. */
  type Apply = (string, seq<Value>, seq<(string, Value)>) -> Outcome<Value>

  /** Python's position for an index `i` into a sequence of length `len`:
      negative indices count from the end. */
  function Position(i: int, len: nat): (r: Option<nat>)
    ensures r.Some? <==> 0 <= i + len && i < len
    ensures r.Some? ==> r.value < len && (r.value == i || r.value == i + len)
  {
    if 0 <= i < len then Some(i)
    else if 0 <= i + len && i < 0 then Some(i + len)
    else None
  }

  /** `v[k]`: a list or a string takes an int index, counted from the end when it
      is negative; a dictionary takes any key it holds. */
  function Index(v: Value, k: Key): (r: Outcome<Value>)
    ensures v.Dict? && k in v.entries ==> r == Ok(v.entries[k])
    ensures v.Dict? && k !in v.entries ==> r == Err(KeyError(k))
    ensures (v.List? || v.Str?) && k.StrKey? ==> r == Err(TypeError)
    ensures v.List? && k.IntKey? ==> (r.Ok? <==> -|v.items| <= k.i < |v.items|)
    ensures v.List? && k.IntKey? && r.Ok? ==> r.value == v.items[Position(k.i, |v.items|).value]
    ensures v.Str? && k.IntKey? ==> (r.Ok? <==> -|v.s| <= k.i < |v.s|)
    ensures v.Str? && k.IntKey? && r.Ok? ==> r.value == Str([v.s[Position(k.i, |v.s|).value]])
    ensures (v.List? || v.Str?) && k.IntKey? && r.Err? ==> r.error == IndexError
    ensures !(v.List? || v.Str? || v.Dict?) ==> r == Err(TypeError)
  {
    match v
    case List(items) =>
      if k.StrKey? then Err(TypeError)
      else (match Position(k.i, |items|)
            case Some(j) => Ok(items[j])
            case None => Err(IndexError))
    case Str(s) =>
      if k.StrKey? then Err(TypeError)
      else (match Position(k.i, |s|)
            case Some(j) => Ok(Str([s[j]]))
            case None => Err(IndexError))
    case Dict(entries) =>
      if k in entries then Ok(entries[k]) else Err(KeyError(k))
    case _ => Err(TypeError)
  }

  /** `getattr(v, name)` */
  function GetAttr(v: Value, name: string): (r: Outcome<Value>)
    ensures r.Ok? <==> v.Obj? && name in v.attrs
    ensures r.Ok? ==> r.value == v.attrs[name]
    ensures r.Err? ==> r.error == AttributeError(name)
  {
    if v.Obj? && name in v.attrs then Ok(v.attrs[name]) else Err(AttributeError(name))
  }

  /** `v()`: only a callable can be called, and it gets no arguments. */
  function CallValue(v: Value, ap: Apply): (r: Outcome<Value>)
    ensures v.Fn? ==> r == ap(v.name, [], [])
    ensures !v.Fn? ==> r == Err(TypeError)
  {
    if v.Fn? then ap(v.name, [], []) else Err(TypeError)
  }

  /** The decimal digits of `n`, as Python's `str` writes a non-negative int: no
      leading zero, and reading the digits back gives `n`. */
  function Digits(n: nat): (r: string)
    ensures |r| >= 1
    ensures forall c :: c in r ==> '0' <= c <= '9'
    ensures n > 0 ==> r[0] != '0'
    ensures n < 10 ==> |r| == 1
  {
    if n < 10 then [DigitChar(n)] else Digits(n / 10) + [DigitChar(n % 10)]
  }

  /** The character of a decimal digit. */
  function DigitChar(d: nat): (c: char)
    requires d < 10
    ensures '0' <= c <= '9' && (c - '0') as nat == d
  {
    ('0' as int + d) as char
  }

  /** Reading the digits of `n` back gives `n`. */
  lemma {:induction false} DigitsRoundTrip(n: nat)
    ensures DigitsValue(Digits(n)) == n
  {
    if n >= 10 {
      DigitsRoundTrip(n / 10);
      var r := Digits(n);
      assert r[..|r| - 1] == Digits(n / 10);
    }
  }

  /** The number a string of decimal digits denotes, read most significant first. */
  function DigitsValue(s: string): nat {
    if s == [] then 0
    else
      var c := s[|s| - 1];
      DigitsValue(s[..|s| - 1]) * 10 + (if '0' <= c <= '9' then (c - '0') as nat else 0)
  }

  /** Distinct numbers have distinct decimal strings. */
  lemma {:induction false} DigitsInjective(m: nat, n: nat)
    ensures Digits(m) == Digits(n) ==> m == n
  {
    DigitsRoundTrip(m);
    DigitsRoundTrip(n);
  }

  /** `str(k)` for a key. */
  function KeyStr(k: Key): string {
    match k
    case IntKey(i) => if i < 0 then "-" + Digits(-i) else Digits(i)
    case StrKey(s) => s
  }

  /** `str` tells int keys apart. (It does not tell an int from the string of its
      digits: `str(1) == str('1')`, see `Graph.IdCollisions`.) */
  lemma {:induction false} KeyStrInts(i: int, j: int)
    ensures KeyStr(IntKey(i)) == KeyStr(IntKey(j)) ==> i == j
  {
    var s, t := KeyStr(IntKey(i)), KeyStr(IntKey(j));
    if s == t {
      KeyStrSign(i);
      KeyStrSign(j);
      assert (i < 0) == (j < 0);
      if i < 0 {
        NegativeKeyStr(i);
        NegativeKeyStr(j);
        DigitsInjective(-i, -j);
      } else {
        assert s == Digits(i) && t == Digits(j);
        DigitsInjective(i, j);
      }
    }
  }

  /** Behind the minus sign of a negative int are the digits of its magnitude. */
  lemma NegativeKeyStr(i: int)
    requires i < 0
    ensures KeyStr(IntKey(i))[1..] == Digits(-i)
  {
    var d := Digits(-i);
    var s := KeyStr(IntKey(i));
    assert s == "-" + d;
    assert s[1..] == d;
  }

  /** `str` of an int starts with a minus sign exactly when the int is negative. */
  lemma {:induction false} KeyStrSign(i: int)
    ensures |KeyStr(IntKey(i))| >= 1
    ensures KeyStr(IntKey(i))[0] == '-' <==> i < 0
  {
    if i >= 0 {
      assert Digits(i)[0] in Digits(i);
    }
  }
}
