/**
 * The values a manual write receives in its JSON body, the validation of a
 * status token and the conversion of a parameter value with `float()`.
 *
 * JSON numbers keep the form they were written in: `1` decodes to a Python
 * `int`, `1.0` to a `float`. Floats are modelled as reals.
 */
module Status {
  import opened Wrappers

  /** A decoded JSON value; arrays and objects are `JOther`. */
  datatype Json = JNull | JBool(b: bool) | JInt(i: int) | JFloat(f: real) | JStr(s: string) | JOther

  /** The numeric value of a JSON number or boolean (Python treats `True` as 1). */
  function Numeric(v: Json): Option<real>
  {
    match v
    case JBool(b) => Some(if b then 1.0 else 0.0)
    case JInt(i) => Some(i as real)
    case JFloat(f) => Some(f)
    case _ => None
  }

  /** Python's `==` between two decoded JSON scalars: numbers compare by value, strings by content. */
  predicate PyEq(v: Json, w: Json)
  {
    if Numeric(v).Some? || Numeric(w).Some? then Numeric(v) == Numeric(w)
    else match (v, w)
      case (JStr(a), JStr(b)) => a == b
      case (JNull, JNull) => true
      case _ => false
  }

  /** The tuple a status must belong to, in the order the validation lists it. */
  const AcceptedTokens: seq<Json> := [
    JStr("ON"), JStr("OFF"), JInt(1), JInt(0), JStr("1"), JStr("0"), JStr("True"), JStr("False")]

  /** `st in (...)`: the status equals, in Python's sense, one of the accepted tokens. */
  predicate Accepted(v: Json)
  {
    exists i | 0 <= i < |AcceptedTokens| :: PyEq(v, AcceptedTokens[i])
  }

  /**
   * Validation is exact and case-sensitive: six strings, and any number or
   * boolean equal to 0 or 1; `"on"`, `"true"`, `2` and `null` are refused.
   */
  lemma AcceptedExactly(v: Json)
    ensures Accepted(v) <==>
            (v.JStr? && v.s in ["ON", "OFF", "1", "0", "True", "False"]) ||
            (Numeric(v).Some? && (Numeric(v).value == 0.0 || Numeric(v).value == 1.0))
  {
    if v.JStr? && v.s in ["ON", "OFF", "1", "0", "True", "False"] {
      var k := if v.s == "ON" then 0 else if v.s == "OFF" then 1 else if v.s == "1" then 4
               else if v.s == "0" then 5 else if v.s == "True" then 6 else 7;
      assert PyEq(v, AcceptedTokens[k]);
    }
    if Numeric(v).Some? && Numeric(v).value == 1.0 {
      assert PyEq(v, AcceptedTokens[2]);
    }
    if Numeric(v).Some? && Numeric(v).value == 0.0 {
      assert PyEq(v, AcceptedTokens[3]);
    }
  }

  /** Python's `str()` of an accepted status. */
  function PyStr(v: Json): string
    requires Accepted(v)
  {
    match v
    case JStr(s) => s
    case JBool(b) => if b then "True" else "False"
    case JInt(i) => if i == 1 then "1" else "0"
    case JFloat(f) => if f == 1.0 then "1.0" else "0.0"
    case _ => ""
  }

  /** `str.upper()` on ASCII letters; every accepted status renders in ASCII. */
  function Upper(s: string): (r: string)
    ensures |r| == |s|
    ensures forall k :: 0 <= k < |s| ==> r[k] == if 'a' <= s[k] <= 'z' then (s[k] as int - 32) as char else s[k]
  {
    seq(|s|, k requires 0 <= k < |s| => if 'a' <= s[k] <= 'z' then (s[k] as int - 32) as char else s[k])
  }

  /** `upper()` leaves no lower-case ASCII letter behind, so a second `upper()` changes nothing. */
  lemma UpperIdempotent(s: string)
    ensures forall k :: 0 <= k < |s| ==> !('a' <= Upper(s)[k] <= 'z')
    ensures Upper(Upper(s)) == Upper(s)
  {
  }

  /** The tokens read as ON; the last two (Chinese for "open", "switched on") can never pass validation. */
  const OnTokens: seq<string> := ["ON", "1", "TRUE", "\U{958B}", "\U{958B}\U{6A5F}"]

  /** The status mapping as written: `1 if str(st).upper() in (...) else 0`. */
  function StatusNumAsWritten(v: Json): int
    requires Accepted(v)
  {
    if Upper(PyStr(v)) in OnTokens then 1 else 0
  }

  /** What the accepted statuses stand for: ON, 1, "1" and "True" mean on (Python-equal, so `True` and `1.0` too). */
  predicate MeansOn(v: Json)
  {
    PyEq(v, JStr("ON")) || PyEq(v, JInt(1)) || PyEq(v, JStr("1")) || PyEq(v, JStr("True"))
  }

  /**
   * `str(st)` with a number first reduced to an integer, so `1.0` reads as
   * `"1"` just as the validation already took it for 1.
   */
  function Token(v: Json): string
    requires Accepted(v)
  {
    match v
    case JFloat(f) => if f == 1.0 then "1" else "0"
    case _ => PyStr(v)
  }

  /** The corrected status mapping. */
  function StatusNum(v: Json): int
    requires Accepted(v)
  {
    if Upper(Token(v)) in OnTokens then 1 else 0
  }

  /** The corrected mapping yields 1 exactly for the accepted statuses that mean on, and 0 for the rest. */
  lemma StatusNumMeansOn(v: Json)
    requires Accepted(v)
    ensures StatusNum(v) == 1 <==> MeansOn(v)
    ensures StatusNum(v) == 0 <==> !MeansOn(v)
  {
    AcceptedExactly(v);
    if v.JStr? {
      StringStatusMeansOn(v.s);
    } else {
      var u := Upper(Token(v));
      if Numeric(v).value == 1.0 {
        assert u == "1" || u == "TRUE";
      } else {
        assert u == "0" || u == "FALSE";
        assert u !in OnTokens by {
          assert u == "FALSE" ==> u[0] != "TRUE"[0];
        }
      }
    }
  }

  /** Of the six accepted strings, exactly `ON`, `1` and `True` upper-case to an ON token. */
  lemma StringStatusMeansOn(s: string)
    requires s in ["ON", "OFF", "1", "0", "True", "False"]
    ensures Accepted(JStr(s))
    ensures Upper(Token(JStr(s))) in OnTokens <==> MeansOn(JStr(s))
  {
    AcceptedExactly(JStr(s));
    StringMeansOn(s);
    UpperAccepted(s);
    var u := Upper(s);
    assert Token(JStr(s)) == s;
    if s == "OFF" {
      assert u !in OnTokens by { assert |u| == 3; }
    } else if s == "0" {
      assert u !in OnTokens by { assert u[0] == '0'; }
    } else if s == "False" {
      assert u !in OnTokens by { assert |u| == 5; }
    } else if s == "True" {
      assert u == OnTokens[2];
    } else if s == "ON" {
      assert u == OnTokens[0];
    } else {
      assert u == OnTokens[1];
    }
  }

  /** `upper()` of the accepted strings: only `True` and `False` change. */
  lemma UpperAccepted(s: string)
    requires s in ["ON", "OFF", "1", "0", "True", "False"]
    ensures Upper(s) == if s == "True" then "TRUE" else if s == "False" then "FALSE" else s
  {
    if s == "True" {
      assert Upper(s) == "TRUE";
    } else if s == "False" {
      assert Upper(s) == "FALSE";
    } else if s == "ON" {
      assert Upper(s) == "ON";
    } else if s == "OFF" {
      assert Upper(s) == "OFF";
    } else if s == "1" {
      assert Upper(s) == "1";
    } else {
      assert Upper(s) == "0";
    }
  }

  /** A string means on exactly when it is `ON`, `1` or `True`: strings never equal numbers in Python. */
  lemma StringMeansOn(s: string)
    ensures MeansOn(JStr(s)) <==> s == "ON" || s == "1" || s == "True"
  {
    assert Numeric(JStr(s)).None? && Numeric(JInt(1)) == Some(1.0);
    assert !PyEq(JStr(s), JInt(1));
  }

  /**
   * As written, the float `1.0` passes validation (it equals 1) but renders
   * as `"1.0"`, which is not an ON token, so it is stored as OFF. Every
   * other accepted status maps as the corrected mapping does.
   */
  lemma StatusNumAsWrittenOnlyFloatOne(v: Json)
    requires Accepted(v)
    ensures StatusNumAsWritten(v) != StatusNum(v) <==> v == JFloat(1.0)
  {
    AcceptedExactly(v);
    if v.JFloat? {
      var w := Upper(PyStr(v));
      if v.f == 1.0 {
        assert w == "1.0";
        assert w !in OnTokens by {
          assert |w| == 3;
        }
        StatusNumMeansOn(v);
      } else {
        assert w == "0.0";
        assert w !in OnTokens by {
          assert |w| == 3;
        }
        StatusNumMeansOn(v);
      }
    }
  }

  /** The witness: `{"status": 1.0}` is accepted yet stored as 0. */
  lemma StatusFloatOneStoredOff()
    ensures Accepted(JFloat(1.0)) && MeansOn(JFloat(1.0))
    ensures StatusNumAsWritten(JFloat(1.0)) == 0 && StatusNum(JFloat(1.0)) == 1
  {
    AcceptedExactly(JFloat(1.0));
    StatusNumAsWrittenOnlyFloatOne(JFloat(1.0));
    StatusNumMeansOn(JFloat(1.0));
  }

  /**
   * `float(v)` inside the `try`: numbers and booleans convert, a string goes
   * through the text parser `parseText` (`None` for `ValueError`), and
   * `null`, arrays and objects raise `TypeError`.
   */
  function ToFloat(v: Json, parseText: string -> Option<real>): (r: Option<real>)
    ensures v.JStr? ==> r == parseText(v.s)
    ensures !v.JStr? ==> r == Numeric(v)
  {
    match v
    case JStr(s) => parseText(s)
    case JNull => None
    case JOther => None
    case _ => Numeric(v)
  }
}
