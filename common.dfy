/** Values shared by every part of the model: optional values and the shapes of
    the JavaScript values the application throws and inspects. */
module Common {

  /** A value that may be absent (`null` / `undefined` in the application). */
  datatype Option<+T> = None | Some(value: T) {

    /** Returns the value, or `default` when there is none (the `??` operator). */
    function GetOr(default: T): T {
      match this
      case Some(v) => v
      case None => default
    }
  }

  /** A string-valued field under JavaScript truthiness: present and not "". */
  predicate Truthy(s: Option<string>) {
    s.Some? && s.value != ""
  }

  /** The shapes of a thrown value that the application distinguishes.
      `ErrorInstance` is an `Error` (for example a `TypeError` from `fetch`);
      `PlainObject` is an error object returned by the database client, with
      its string-typed `message`, `error` and `code` properties (absent when
      missing or not a string) and `json`, the result of `JSON.stringify` on
      it (absent when that throws); `Text` is a thrown string; `Primitive` a
      number, boolean, `null` or `undefined`, carrying what `String(x)` gives;
      `Opaque` a symbol, bigint or function, carrying what `String(x)` gives. */
  datatype JsError =
    | ErrorInstance(message: string, codeField: Option<string>)
    | PlainObject(messageField: Option<string>, errorField: Option<string>, codeField: Option<string>, json: Option<string>)
    | Text(s: string)
    | Primitive(rendered: string)
    | Opaque(rendered: string)
  {
    /** `typeof err === "object"` and `err` is truthy. */
    predicate IsObject() {
      ErrorInstance? || PlainObject?
    }

    /** The `code` property when it is a string. */
    function CodeText(): string {
      match this
      case ErrorInstance(_, c) => c.GetOr("")
      case PlainObject(_, _, c, _) => c.GetOr("")
      case _ => ""
    }

    /** The `message` property when it is a string. */
    function MessageText(): string {
      match this
      case ErrorInstance(m, _) => m
      case PlainObject(m, _, _, _) => m.GetOr("")
      case _ => ""
    }
  }

  /** The outcome of one write or delete through the database client:
      `{ error: null }` or an error (also what a throwing client gives). */
  datatype DbResult = DbOk | DbError(err: JsError)

  /** `s.filter(p)`: the elements of `s` that satisfy `p`, in order. */
  function Filter<T>(s: seq<T>, p: T -> bool): (r: seq<T>)
    ensures |r| <= |s|
    ensures forall i :: 0 <= i < |r| ==> p(r[i])
  {
    if |s| == 0 then [] else Filter(s[..|s| - 1], p) + (if p(s[|s| - 1]) then [s[|s| - 1]] else [])
  }

  lemma FilterSnoc<T>(s: seq<T>, x: T, p: T -> bool)
    ensures Filter(s + [x], p) == Filter(s, p) + (if p(x) then [x] else [])
  {
    assert (s + [x])[..|s|] == s;
  }

  /** Filtering a concatenation filters each part: relative order is kept. */
  lemma {:induction false} FilterConcat<T>(a: seq<T>, b: seq<T>, p: T -> bool)
    ensures Filter(a + b, p) == Filter(a, p) + Filter(b, p)
    decreases |b|
  {
    if |b| > 0 {
      var init := b[..|b| - 1];
      assert a + b == (a + init) + [b[|b| - 1]];
      FilterSnoc(a + init, b[|b| - 1], p);
      FilterConcat(a, init, p);
      FilterSnoc(init, b[|b| - 1], p);
      assert b == init + [b[|b| - 1]];
    } else {
      assert a + b == a;
    }
  }

  /** An element is kept exactly when it is in the input and satisfies `p`. */
  lemma {:induction false} FilterMembership<T>(s: seq<T>, p: T -> bool, x: T)
    ensures x in Filter(s, p) <==> x in s && p(x)
    decreases |s|
  {
    if |s| > 0 {
      var init := s[..|s| - 1];
      FilterMembership(init, p, x);
      assert s == init + [s[|s| - 1]];
    }
  }

  /** `Math.round(n / d)` for an even divisor: the nearest integer, halves
      rounded up. */
  function RoundDiv(n: int, d: int): (r: int)
    requires d > 0 && d % 2 == 0
    ensures d * r - d / 2 <= n < d * r + d / 2
  {
    (n + d / 2) / d
  }
}
