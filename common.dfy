/** Values shared by every part of the pipeline: metadata dictionaries, the
    exceptions the Python code raises, and the usual Option/Result wrappers. */
module Common {
  import opened Strings

  /** A metadata value. The pipeline only ever stores strings (source, title,
      category, content) and integers (chunk_index) in its dictionaries. */
  datatype Value = Text(s: string) | Num(n: int)

  /** A Python dict from string keys to values. */
  type Metadata = map<string, Value>

  /** `str(v)`, as an f-string renders a value. */
  function Display(v: Value): string
  {
    match v
    case Text(s) => s
    case Num(n) => IntToString(n)
  }

  /** The Python exceptions the core raises itself. */
  datatype Error =
    | KeyError(key: string)      // a missing dictionary key
    | ValueError(message: string) // a bad argument

  datatype Option<T> = None | Some(value: T)

  datatype Result<T> = Ok(value: T) | Err(error: Error)

  function Min(a: int, b: int): (m: int)
    ensures m <= a && m <= b && (m == a || m == b)
  {
    if a <= b then a else b
  }

  /** `d.get(key, default)` */
  function Get(d: Metadata, key: string, default: Value): (v: Value)
    ensures key in d ==> v == d[key]
    ensures key !in d ==> v == default
  {
    if key in d then d[key] else default
  }

  /** `a / b == q` exactly when `q * b <= a < (q + 1) * b`. */
  lemma DivBetween(a: int, b: int, q: int)
    requires b > 0 && q * b <= a < q * b + b
    ensures a / b == q
  {
    var d := a / b;
    assert d * b <= a < d * b + b;
    if d > q {
      MulAtLeast(d - q, b);
    } else if d < q {
      MulAtLeast(q - d, b);
    }
  }

  lemma {:induction false} MulAtLeast(k: int, b: int)
    requires k >= 1 && b > 0
    ensures k * b >= b
    decreases k
  {
    if k > 1 {
      MulAtLeast(k - 1, b);
      assert k * b == (k - 1) * b + b;
    }
  }

  /** `(j + 1) * b` is one more `b` than `j * b`. */
  lemma MulSucc(j: int, b: int)
    ensures (j + 1) * b == j * b + b
  {
  }

  /** m is ceil(n / s) when m strides of s reach n and m - 1 do not. */
  lemma CeilDivCount(n: nat, s: nat, m: nat)
    requires s > 0 && n <= m * s
    requires m > 0 ==> (m - 1) * s < n
    ensures CeilDiv(n, s) == m
  {
    if m == 0 {
      DivBetween(n + s - 1, s, 0);
    } else {
      MulSucc(m - 1, s);
      DivBetween(n + s - 1, s, m);
    }
  }

  /** Ceiling division `ceil(n / s)`. */
  function CeilDiv(n: nat, s: nat): nat
    requires s > 0
  {
    (n + s - 1) / s
  }
}
