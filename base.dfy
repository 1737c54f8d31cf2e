/** Shared vocabulary of the backend model: optional values, HTTP-like replies,
    the JavaScript values that arrive in a JSON request body, and the few string
    and array operations the handlers rely on (String.prototype.trim,
    String.prototype.split, Array filtering and Mongo's $addToSet / $pull). */
module Base {

  datatype Option<T> = None | Some(value: T)

  /** Document identifiers (Mongo ObjectIds), abstracted to numbers. */
  type Id = nat

  /** What a handler sends back: a status code and the JSON `message`. */
  datatype Reply = Reply(code: nat, message: string)

  /** A value of a parsed JSON request body, as far as its truthiness matters.
      Floating point numbers, NaN and -0 are not modelled. */
  datatype JsValue =
    | Undefined
    | Null
    | Bool(b: bool)
    | Num(n: int)
    | Str(s: string)
    | Arr(items: seq<JsValue>)
    | Obj(fields: map<string, JsValue>)

  /** JavaScript truthiness: `undefined`, `null`, `false`, `0` and `""` are falsy;
      every array and object, even an empty one, is truthy. */
  predicate Truthy(v: JsValue) {
    match v
    case Undefined => false
    case Null => false
    case Bool(b) => b
    case Num(n) => n != 0
    case Str(s) => s != ""
    case Arr(_) => true
    case Obj(_) => true
  }

  /** `body[key]` of a parsed JSON body: a missing key reads as `undefined`. */
  function Field(body: map<string, JsValue>, key: string): JsValue {
    if key in body then body[key] else Undefined
  }

  /** The characters that the regular-expression class `\s` and
      `String.prototype.trim` treat as white space: ECMAScript's WhiteSpace
      and LineTerminator code points. */
  predicate IsJsSpace(c: char) {
    var n := c as int;
    n == 0x09 || n == 0x0A || n == 0x0B || n == 0x0C || n == 0x0D || n == 0x20
    || n == 0xA0 || n == 0x1680 || (0x2000 <= n <= 0x200A) || n == 0x2028 || n == 0x2029
    || n == 0x202F || n == 0x205F || n == 0x3000 || n == 0xFEFF
  }

  /** A string made of white space only (the empty string included). */
  predicate IsBlank(s: string) {
    forall i :: 0 <= i < |s| ==> IsJsSpace(s[i])
  }

  function TrimStart(s: string): (r: string)
    ensures |r| <= |s| && r == s[|s| - |r|..]
    ensures r == [] || !IsJsSpace(r[0])
    ensures IsBlank(s) <==> r == []
    ensures IsBlank(s[..|s| - |r|])
    decreases |s|
  {
    if |s| > 0 && IsJsSpace(s[0]) then
      var r := TrimStart(s[1..]);
      assert IsBlank(s) <==> IsBlank(s[1..]) by {
        assert forall i :: 0 <= i < |s[1..]| ==> s[1..][i] == s[i + 1];
      }
      r
    else s
  }

  function TrimEnd(s: string): (r: string)
    ensures |r| <= |s| && r == s[..|r|]
    ensures r == [] || !IsJsSpace(r[|r| - 1])
    ensures IsBlank(s) <==> r == []
    ensures IsBlank(s[|r|..])
    decreases |s|
  {
    if |s| > 0 && IsJsSpace(s[|s| - 1]) then
      var r := TrimEnd(s[..|s| - 1]);
      r
    else s
  }

  /** `String.prototype.trim`: white space removed from both ends. */
  function Trim(s: string): string {
    TrimEnd(TrimStart(s))
  }

  /** `!content.trim()` holds exactly when the content is white space only. */
  lemma TrimEmptyIffBlank(s: string)
    ensures Trim(s) == "" <==> IsBlank(s)
  {
    var t := TrimStart(s);
    if t != [] {
      assert !IsJsSpace(t[0]);
      assert !IsBlank(t);
    }
  }

  predicate NoDup<T(==)>(s: seq<T>) {
    forall i, j :: 0 <= i < j < |s| ==> s[i] != s[j]
  }

  /** Every occurrence of `x` removed, the rest kept in order: Mongo's `$pull`
      and `array.filter(e => e !== x)`. */
  function RemoveAll(s: seq<Id>, x: Id): (r: seq<Id>)
    ensures x !in r
    ensures forall y :: y != x ==> (y in r <==> y in s)
    ensures |r| <= |s|
    ensures x !in s ==> r == s
    ensures NoDup(s) ==> NoDup(r)
    ensures NoDup(s) && x in s ==> |r| == |s| - 1
  {
    if s == [] then []
    else
      var rest := RemoveAll(s[1..], x);
      assert forall y :: y in s <==> y == s[0] || y in s[1..];
      if s[0] == x then rest
      else
        assert NoDup(s) ==> s[0] !in s[1..];
        [s[0]] + rest
  }

  /** Mongo's `$addToSet`: append `x` unless it is already present. */
  function AddToSet(s: seq<Id>, x: Id): (r: seq<Id>)
    ensures x in r
    ensures forall y :: y in r <==> y in s || y == x
    ensures NoDup(s) ==> NoDup(r)
    ensures x in s ==> r == s
  {
    if x in s then s else s + [x]
  }

  /** Pulling an element that was appended to a list without it gives the list back. */
  lemma {:induction false} RemoveAllAppended(s: seq<Id>, x: Id)
    requires x !in s
    ensures RemoveAll(s + [x], x) == s
  {
    if s != [] {
      assert (s + [x])[0] == s[0] && (s + [x])[1..] == s[1..] + [x];
      RemoveAllAppended(s[1..], x);
    } else {
      assert RemoveAll([x], x) == RemoveAll([], x);
    }
  }

  /** Position of the first occurrence of `c` in `s`. */
  function IndexOf<T(==)>(s: seq<T>, c: T): (i: nat)
    requires c in s
    ensures i < |s| && s[i] == c && c !in s[..i]
  {
    if s[0] == c then 0 else 1 + IndexOf(s[1..], c)
  }

  /** `String.prototype.split` with a one-character separator: the pieces
      between separators, always at least one. */
  function Split(s: string, sep: char): (parts: seq<string>)
    ensures |parts| >= 1
  {
    SplitFrom(s, sep, "")
  }

  /** Split `s`, where `piece` is the part of the current piece already read. */
  function SplitFrom(s: string, sep: char, piece: string): (parts: seq<string>)
    ensures |parts| >= 1
    decreases |s|
  {
    if s == [] then [piece]
    else if s[0] == sep then [piece] + SplitFrom(s[1..], sep, "")
    else SplitFrom(s[1..], sep, piece + [s[0]])
  }

  /** `Array.prototype.join` with a one-character separator. */
  function Join(parts: seq<string>, sep: char): string {
    if |parts| <= 1 then (if parts == [] then "" else parts[0])
    else parts[0] + [sep] + Join(parts[1..], sep)
  }

  /** No piece produced by Split contains the separator. */
  lemma SplitPiecesHaveNoSeparator(s: string, sep: char)
    ensures forall i :: 0 <= i < |Split(s, sep)| ==> sep !in Split(s, sep)[i]
  {
    SplitFromPiecesAvoid(s, sep, sep, "");
  }

  /** No piece produced by Split contains a character absent from the string. */
  lemma SplitPiecesAvoid(s: string, sep: char, c: char)
    requires c !in s
    ensures forall i :: 0 <= i < |Split(s, sep)| ==> c !in Split(s, sep)[i]
  {
    SplitFromPiecesAvoid(s, sep, c, "");
  }

  /** The pieces avoid `c` when the input does or `c` is the separator. */
  lemma {:induction false} SplitFromPiecesAvoid(s: string, sep: char, c: char, piece: string)
    requires c !in piece && (c == sep || c !in s)
    ensures forall i :: 0 <= i < |SplitFrom(s, sep, piece)| ==> c !in SplitFrom(s, sep, piece)[i]
    decreases |s|
  {
    if s != [] {
      assert c != sep ==> s[0] != c;
      assert forall x :: x in s[1..] ==> x in s;
      if s[0] == sep {
        SplitFromPiecesAvoid(s[1..], sep, c, "");
      } else {
        SplitFromPiecesAvoid(s[1..], sep, c, piece + [s[0]]);
      }
    }
  }

  /** Joining the pieces gives back the original string. */
  lemma JoinSplit(s: string, sep: char)
    ensures Join(Split(s, sep), sep) == s
  {
    JoinSplitFrom(s, sep, "");
  }

  lemma {:induction false} JoinSplitFrom(s: string, sep: char, piece: string)
    ensures Join(SplitFrom(s, sep, piece), sep) == piece + s
    decreases |s|
  {
    if s != [] {
      if s[0] == sep {
        var rest := SplitFrom(s[1..], sep, "");
        JoinSplitFrom(s[1..], sep, "");
        assert Join([piece] + rest, sep) == piece + [sep] + Join(rest, sep);
        assert s == [sep] + s[1..];
      } else {
        JoinSplitFrom(s[1..], sep, piece + [s[0]]);
        assert s == [s[0]] + s[1..];
      }
    }
  }

  /** A string without the separator is a single piece. */
  lemma SplitWithoutSeparator(s: string, sep: char)
    requires sep !in s
    ensures Split(s, sep) == [s]
  {
    SplitFromWithoutSeparator(s, sep, "");
    assert "" + s == s;
  }

  lemma {:induction false} SplitFromWithoutSeparator(s: string, sep: char, piece: string)
    requires sep !in s
    ensures SplitFrom(s, sep, piece) == [piece + s]
    decreases |s|
  {
    if s != [] {
      assert s[0] in s && s[0] != sep;
      assert forall c :: c in s[1..] ==> c in s;
      SplitFromWithoutSeparator(s[1..], sep, piece + [s[0]]);
      assert SplitFrom(s, sep, piece) == SplitFrom(s[1..], sep, piece + [s[0]]);
      assert piece + [s[0]] + s[1..] == piece + s;
    } else {
      assert piece + s == piece;
    }
  }

  /** Splitting distributes over a separator: the pieces of `a + sep + b`
      are the pieces of `a` followed by the pieces of `b`. */
  lemma SplitAtSeparator(a: string, b: string, sep: char)
    ensures Split(a + [sep] + b, sep) == Split(a, sep) + Split(b, sep)
  {
    SplitFromAtSeparator(a, b, sep, "");
  }

  lemma {:induction false} SplitFromAtSeparator(a: string, b: string, sep: char, piece: string)
    ensures SplitFrom(a + [sep] + b, sep, piece) == SplitFrom(a, sep, piece) + SplitFrom(b, sep, "")
    decreases |a|
  {
    var s := a + [sep] + b;
    if a == [] {
      assert s[0] == sep && s[1..] == b;
    } else {
      assert s[0] == a[0] && s[1..] == a[1..] + [sep] + b;
      if a[0] == sep {
        SplitFromAtSeparator(a[1..], b, sep, "");
      } else {
        SplitFromAtSeparator(a[1..], b, sep, piece + [a[0]]);
      }
    }
  }
}
