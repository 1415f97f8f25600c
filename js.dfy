/** The few JavaScript values and built-ins the form builder relies on:
    the value slot of a field (a string or an array of strings), truthiness,
    `String.prototype.split(',')` and its inverse `Array.prototype.join(',')`,
    `includes`, `filter(x => x !== o)` and the start rule of `splice`. */
module Js {

  datatype Option<+T> = None | Some(value: T)

  /** What a field's `value` slot can hold: a string (text, textarea, and a
      dropdown or radio after a choice) or an array of strings (checkbox, and
      an untouched dropdown or radio). */
  datatype Value = Str(s: string) | Arr(items: seq<string>)

  /** JavaScript truthiness of a value: the empty string is falsy, every
      array, the empty one included, is truthy. */
  predicate Truthy(v: Value)
    ensures !Truthy(v) <==> v == Str("")
  {
    match v
    case Str(s) => s != ""
    case Arr(_) => true
  }

  /** The `length` property of a string or an array. */
  function Length(v: Value): nat
  {
    match v
    case Str(s) => |s|
    case Arr(a) => |a|
  }

  /** `s.includes(sub)` on strings: `sub` occurs somewhere in `s`. */
  predicate StrIncludes(s: string, sub: string)
    decreases |s|
  {
    sub <= s || (s != [] && StrIncludes(s[1..], sub))
  }

  /** `sub` sits in `s` starting at position `i`. */
  ghost predicate OccursAt(s: string, sub: string, i: nat)
  {
    i + |sub| <= |s| && s[i..i + |sub|] == sub
  }

  /** `StrIncludes` holds exactly when `sub` occurs at some position of `s`. */
  lemma {:induction false} StrIncludesIff(s: string, sub: string)
    ensures StrIncludes(s, sub) <==> exists i: nat :: OccursAt(s, sub, i)
    decreases |s|
  {
    if sub <= s {
      assert s[0..|sub|] == sub;
      assert OccursAt(s, sub, 0);
    } else if s != [] {
      StrIncludesIff(s[1..], sub);
      if exists i: nat :: OccursAt(s[1..], sub, i) {
        var i: nat :| OccursAt(s[1..], sub, i);
        assert s[1..][i..i + |sub|] == s[i + 1..i + 1 + |sub|];
        assert OccursAt(s, sub, i + 1);
      }
      if exists i: nat :: OccursAt(s, sub, i) {
        var i: nat :| OccursAt(s, sub, i);
        assert i > 0;
        assert s[1..][i - 1..i - 1 + |sub|] == s[i..i + |sub|];
        assert OccursAt(s[1..], sub, i - 1);
      }
    }
  }

  /** `value.includes(x)` for either kind of value. */
  predicate Includes(v: Value, x: string)
  {
    match v
    case Str(s) => StrIncludes(s, x)
    case Arr(a) => x in a
  }

  /** No string occurs twice. */
  ghost predicate Distinct(a: seq<string>)
  {
    forall i, j :: 0 <= i < j < |a| ==> a[i] != a[j]
  }

  /** `a.filter(val => val !== x)`: drops every occurrence of `x`, keeps the
      order of the rest. */
  function Without(a: seq<string>, x: string): (r: seq<string>)
    ensures forall y :: y in r <==> y in a && y != x
    ensures |r| <= |a|
  {
    if a == [] then [] else (if a[0] == x then [] else [a[0]]) + Without(a[1..], x)
  }

  lemma {:induction false} WithoutAbsent(a: seq<string>, x: string)
    requires x !in a
    ensures Without(a, x) == a
  {
    if a != [] {
      WithoutAbsent(a[1..], x);
      assert [a[0]] + a[1..] == a;
    }
  }

  lemma {:induction false} WithoutAppend(a: seq<string>, b: seq<string>, x: string)
    ensures Without(a + b, x) == Without(a, x) + Without(b, x)
  {
    if a == [] {
      assert a + b == b;
    } else {
      assert (a + b)[0] == a[0];
      assert (a + b)[1..] == a[1..] + b;
      WithoutAppend(a[1..], b, x);
    }
  }

  lemma {:induction false} WithoutDistinct(a: seq<string>, x: string)
    requires Distinct(a)
    ensures Distinct(Without(a, x))
  {
    if a != [] {
      assert Distinct(a[1..]) by {
        forall i, j | 0 <= i < j < |a[1..]| ensures a[1..][i] != a[1..][j] {
          assert a[1..][i] == a[i + 1] && a[1..][j] == a[j + 1];
        }
      }
      WithoutDistinct(a[1..], x);
      var w := Without(a[1..], x);
      assert a[0] !in a[1..] by {
        forall k | 0 <= k < |a[1..]| ensures a[1..][k] != a[0] {
          assert a[1..][k] == a[k + 1];
        }
      }
      assert a[0] !in w;
      var h := if a[0] == x then [] else [a[0]];
      forall i, j | 0 <= i < j < |h + w| ensures (h + w)[i] != (h + w)[j] {
        if i < |h| {
          assert (h + w)[i] == a[0];
          assert (h + w)[j] == w[j - |h|];
        } else {
          assert (h + w)[i] == w[i - |h|] && (h + w)[j] == w[j - |h|];
        }
      }
    }
  }

  /** The separator the form builder splits and joins options on. */
  const Comma: char := ','

  /** Number of commas in `s`. */
  function CommaCount(s: string): nat
  {
    if s == [] then 0 else (if s[0] == Comma then 1 else 0) + CommaCount(s[1..])
  }

  /** `s.split(',')`: the maximal comma-free pieces of `s`, in order, with
      empty pieces kept; the empty string splits into `[""]`. */
  function Split(s: string): (parts: seq<string>)
    ensures |parts| >= 1
    ensures forall i :: 0 <= i < |parts| ==> Comma !in parts[i]
    decreases |s|
  {
    if s == [] then [""]
    else
      var rest := Split(s[1..]);
      if s[0] == Comma then [""] + rest
      else [[s[0]] + rest[0]] + rest[1..]
  }

  /** `parts.join(',')`. */
  function Join(parts: seq<string>): string
  {
    if parts == [] then ""
    else if |parts| == 1 then parts[0]
    else parts[0] + [Comma] + Join(parts[1..])
  }

  /** Gluing a character onto the first piece glues it onto the joined text. */
  lemma JoinConsFirst(c: char, p: seq<string>)
    requires |p| >= 1
    ensures Join([[c] + p[0]] + p[1..]) == [c] + Join(p)
  {
  }

  /** Joining what `split` produced gives back the text. */
  lemma {:induction false} JoinSplit(s: string)
    ensures Join(Split(s)) == s
    decreases |s|
  {
    if s != [] {
      var rest := Split(s[1..]);
      JoinSplit(s[1..]);
      if s[0] == Comma {
        var q := [""] + rest;
        assert q[1..] == rest;
        assert Join(q) == "" + [Comma] + Join(rest);
        assert [s[0]] + s[1..] == s;
      } else {
        JoinConsFirst(s[0], rest);
        assert [s[0]] + s[1..] == s;
      }
    }
  }

  /** `split` yields one more piece than there are commas. */
  lemma {:induction false} SplitLength(s: string)
    ensures |Split(s)| == CommaCount(s) + 1
    decreases |s|
  {
    if s != [] {
      SplitLength(s[1..]);
    }
  }

  /** Splitting a comma-free word followed by `r` extends the first piece of `r`. */
  lemma {:induction false} SplitWordPrefix(w: string, r: string)
    requires Comma !in w
    ensures Split(w + r) == [w + Split(r)[0]] + Split(r)[1..]
    decreases |w|
  {
    var sr := Split(r);
    if w == [] {
      assert w + r == r;
      assert w + sr[0] == sr[0];
      assert [sr[0]] + sr[1..] == sr;
    } else {
      var t := w[1..];
      assert (w + r)[0] == w[0];
      assert (w + r)[1..] == t + r;
      assert Comma !in t by {
        forall k | 0 <= k < |t| ensures t[k] != Comma {
          assert t[k] == w[k + 1];
        }
      }
      SplitWordPrefix(t, r);
      assert Split(t + r) == [t + sr[0]] + sr[1..];
      assert [w[0]] + (t + sr[0]) == w + sr[0];
    }
  }

  /** Splitting a join of a non-empty list of comma-free pieces gives the
      pieces back. */
  lemma {:induction false} SplitJoin(parts: seq<string>)
    requires |parts| >= 1
    requires forall i :: 0 <= i < |parts| ==> Comma !in parts[i]
    ensures Split(Join(parts)) == parts
    decreases |parts|
  {
    if |parts| == 1 {
      SplitWordPrefix(parts[0], "");
      assert parts[0] + "" == parts[0];
      assert [parts[0]] == parts;
    } else {
      var tail := parts[1..];
      SplitJoin(tail);
      var rest := [Comma] + Join(tail);
      assert Join(parts) == parts[0] + rest;
      assert rest[0] == Comma && rest[1..] == Join(tail);
      assert Split(rest) == [""] + tail;
      SplitWordPrefix(parts[0], rest);
      assert parts[0] + "" == parts[0];
      assert [parts[0]] + tail == parts;
    }
  }

  /** The text splits into the single empty piece exactly when it is empty. */
  lemma SplitSingleEmpty(s: string)
    ensures Split(s) == [""] <==> s == ""
  {
  }

  /** The index `arr.splice(start, 1)` removes at, for an array of `len`
      elements: a negative start counts from the end (and stops at 0); a
      start past the end is clamped to `len`, where nothing is removed. */
  function SpliceStart(len: nat, start: int): (k: nat)
    ensures k <= len
    ensures 0 <= start <= len ==> k == start
    ensures start < 0 && 0 <= start + len ==> k == start + len
    ensures start > len ==> k == len
    ensures start + len < 0 ==> k == 0
  {
    if start < 0 then (if len + start < 0 then 0 else len + start)
    else if start > len then len
    else start
  }

  /** The array after `arr.splice(start, 1)`. */
  function RemoveAt<T>(s: seq<T>, start: int): (r: seq<T>)
    ensures 0 <= start < |s| ==> |r| == |s| - 1
    ensures 0 <= start < |s| ==> forall j :: 0 <= j < start ==> r[j] == s[j]
    ensures 0 <= start < |s| ==> forall j :: start <= j < |r| ==> r[j] == s[j + 1]
    ensures start >= |s| ==> r == s
  {
    var k := SpliceStart(|s|, start);
    if k < |s| then s[..k] + s[k + 1..] else s
  }

  /** A negative index removes the element that many places from the end. */
  lemma RemoveAtNegative<T>(s: seq<T>, start: int)
    requires -|s| <= start < 0
    ensures RemoveAt(s, start) == RemoveAt(s, |s| + start)
  {
  }
}
