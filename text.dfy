/** The JavaScript string operations the frontend uses: `split`, `join`,
    `trim`, `toLowerCase` (ASCII letters only), `includes` and the global
    `replace` of one character. */
module Text {

  /** The code points `String.prototype.trim` removes: the ECMAScript
      WhiteSpace characters (tab, vertical tab, form feed, space, no-break
      space, byte order mark and every Unicode space separator) and the
      LineTerminator characters (line feed, carriage return, U+2028, U+2029). */
  predicate IsWhitespace(c: char)
  {
    c == '\t' || c == '\n' || c == '\U{000B}' || c == '\U{000C}' || c == '\r' || c == ' ' ||
    c == '\U{00A0}' || c == '\U{1680}' || ('\U{2000}' <= c <= '\U{200A}') ||
    c == '\U{2028}' || c == '\U{2029}' || c == '\U{202F}' || c == '\U{205F}' ||
    c == '\U{3000}' || c == '\U{FEFF}'
  }

  /** Drops the leading whitespace. */
  function TrimStart(s: string): (r: string)
    ensures |r| <= |s| && r == s[|s| - |r|..]
    ensures forall i :: 0 <= i < |s| - |r| ==> IsWhitespace(s[i])
    ensures r == [] || !IsWhitespace(r[0])
  {
    if s != [] && IsWhitespace(s[0]) then TrimStart(s[1..]) else s
  }

  /** Drops the trailing whitespace. */
  function TrimEnd(s: string): (r: string)
    ensures |r| <= |s| && r == s[..|r|]
    ensures forall i :: |r| <= i < |s| ==> IsWhitespace(s[i])
    ensures r == [] || !IsWhitespace(r[|r| - 1])
  {
    if s != [] && IsWhitespace(s[|s| - 1]) then TrimEnd(s[..|s| - 1]) else s
  }

  /** `String.prototype.trim`. */
  function Trim(s: string): string
  {
    TrimEnd(TrimStart(s))
  }

  /** Trimming leaves a string alone when it neither starts nor ends with
      whitespace, and empties exactly the all-whitespace strings. */
  lemma TrimProperties(s: string)
    ensures s != [] && !IsWhitespace(s[0]) && !IsWhitespace(s[|s| - 1]) ==> Trim(s) == s
    ensures Trim(s) == [] <==> forall i :: 0 <= i < |s| ==> IsWhitespace(s[i])
  {
    var t := TrimStart(s);
    if Trim(s) == [] {
      assert t == [];
    }
  }

  /** A string whose first character is not whitespace does not trim to nothing. */
  lemma NotBlank(s: string)
    requires s != [] && !IsWhitespace(s[0])
    ensures Trim(s) != []
  {
    TrimProperties(s);
  }

  /** `String.prototype.split` with a one-character separator: the pieces
      between separators, always at least one (`"".split(",")` is `[""]`). */
  function Split(s: string, sep: char): (r: seq<string>)
    ensures |r| >= 1
    ensures forall i :: 0 <= i < |r| ==> sep !in r[i]
  {
    if s == [] then [""]
    else
      var rest := Split(s[1..], sep);
      if s[0] == sep then [""] + rest
      else [[s[0]] + rest[0]] + rest[1..]
  }

  /** `Array.prototype.join`: the pieces with `sep` between each two. */
  function Join(parts: seq<string>, sep: string): string
  {
    if parts == [] then ""
    else if |parts| == 1 then parts[0]
    else parts[0] + sep + Join(parts[1..], sep)
  }

  /** Joining the pieces of a split with the separator gives back the string. */
  lemma {:induction false} JoinSplit(s: string, sep: char)
    ensures Join(Split(s, sep), [sep]) == s
  {
    if s != [] {
      JoinSplit(s[1..], sep);
      var rest := Split(s[1..], sep);
      if s[0] == sep {
        assert ([""] + rest)[1..] == rest;
      } else {
        var r := Split(s, sep);
        assert r[1..] == rest[1..];
        if |rest| == 1 {
          assert s == [s[0]] + rest[0];
        } else {
          assert Join(rest, [sep]) == rest[0] + [sep] + Join(rest[1..], [sep]);
          assert s == [s[0]] + s[1..];
        }
      }
    }
  }

  /** Splitting `a + t` where `a` holds no separator: `a` is glued to the
      front of the first piece of `t`. */
  lemma {:induction false} SplitPrefix(a: string, t: string, sep: char)
    requires sep !in a
    ensures Split(a + t, sep) == [a + Split(t, sep)[0]] + Split(t, sep)[1..]
  {
    if a == [] {
      assert a + t == t && a + Split(t, sep)[0] == Split(t, sep)[0];
      assert Split(t, sep) == [Split(t, sep)[0]] + Split(t, sep)[1..];
    } else {
      SplitPrefix(a[1..], t, sep);
      assert (a + t)[0] == a[0];
      assert (a + t)[1..] == a[1..] + t;
      assert [a[0]] + (a[1..] + Split(t, sep)[0]) == a + Split(t, sep)[0];
    }
  }

  /** A leading separator splits off an empty first piece. */
  lemma SplitAtSeparator(t: string, sep: char)
    ensures Split([sep] + t, sep) == [""] + Split(t, sep)
  {
    assert ([sep] + t)[1..] == t;
  }

  /** A separator-free piece followed by a separator splits off as the
      first piece. */
  lemma SplitPieceThen(a: string, t: string, sep: char)
    requires sep !in a
    ensures Split(a + ([sep] + t), sep) == [a] + Split(t, sep)
  {
    SplitAtSeparator(t, sep);
    SplitPrefix(a, [sep] + t, sep);
    var r := Split([sep] + t, sep);
    assert r[0] == "" && r[1..] == Split(t, sep);
    assert a + r[0] == a;
  }

  /** A string without the separator splits into itself alone. */
  lemma SplitWithoutSeparator(s: string, sep: char)
    requires sep !in s
    ensures Split(s, sep) == [s]
  {
    SplitPrefix(s, "", sep);
    assert s + "" == s;
  }

  /** Splitting a join gives back the pieces when no piece holds the separator. */
  lemma {:induction false} SplitJoin(parts: seq<string>, sep: char)
    requires |parts| >= 1
    requires forall i :: 0 <= i < |parts| ==> sep !in parts[i]
    ensures Split(Join(parts, [sep]), sep) == parts
  {
    if |parts| == 1 {
      SplitWithoutSeparator(parts[0], sep);
    } else {
      var tail := Join(parts[1..], [sep]);
      SplitJoin(parts[1..], sep);
      assert Join(parts, [sep]) == parts[0] + ([sep] + tail);
      SplitPrefix(parts[0], [sep] + tail, sep);
      assert ([sep] + tail)[0] == sep && ([sep] + tail)[1..] == tail;
      assert Split([sep] + tail, sep) == [""] + parts[1..];
      assert parts[0] + "" == parts[0];
      assert parts == [parts[0]] + parts[1..];
    }
  }

  /** `String.prototype.toLowerCase` on one character, ASCII letters only. */
  function LowerChar(c: char): char
  {
    if 'A' <= c <= 'Z' then (c as int + 32) as char else c
  }

  /** `String.prototype.toLowerCase`, ASCII letters only: the same string
      with each capital letter replaced by its small letter. */
  function Lower(s: string): (r: string)
    ensures |r| == |s|
    ensures forall i :: 0 <= i < |s| ==> r[i] == LowerChar(s[i])
    ensures forall i :: 0 <= i < |r| ==> !('A' <= r[i] <= 'Z')
  {
    if s == [] then [] else [LowerChar(s[0])] + Lower(s[1..])
  }

  /** Lowercasing twice is lowercasing once. */
  lemma LowerIdempotent(s: string)
    ensures Lower(Lower(s)) == Lower(s)
  {
    var once := Lower(s);
    forall i | 0 <= i < |s| ensures Lower(once)[i] == once[i] {
      assert !('A' <= once[i] <= 'Z');
    }
  }

  /** `sub` occurs in `s` starting at position `i`. */
  predicate OccursAt(s: string, sub: string, i: nat)
  {
    i + |sub| <= |s| && s[i..i + |sub|] == sub
  }

  /** `String.prototype.includes`. */
  predicate Contains(s: string, sub: string)
    decreases |s|
  {
    |sub| <= |s| && (s[..|sub|] == sub || (s != [] && Contains(s[1..], sub)))
  }

  /** `includes` holds exactly when the text occurs at some position; so the
      empty string is contained in every string. */
  lemma {:induction false} ContainsMeansOccurs(s: string, sub: string)
    ensures Contains(s, sub) <==> exists i: nat :: OccursAt(s, sub, i)
    decreases |s|
  {
    if Contains(s, sub) {
      if s[..|sub|] == sub {
        assert OccursAt(s, sub, 0);
      } else {
        ContainsMeansOccurs(s[1..], sub);
        var i: nat :| OccursAt(s[1..], sub, i);
        assert s[i + 1..i + 1 + |sub|] == s[1..][i..i + |sub|];
        assert OccursAt(s, sub, i + 1);
      }
    }
    if exists i: nat :: OccursAt(s, sub, i) {
      var i: nat :| OccursAt(s, sub, i);
      if i == 0 {
        assert s[..|sub|] == s[0..|sub|];
      } else {
        assert s[1..][i - 1..i - 1 + |sub|] == s[i..i + |sub|];
        assert OccursAt(s[1..], sub, i - 1);
        ContainsMeansOccurs(s[1..], sub);
      }
    }
  }

  /** `s.replace(/"/g, '""')`: every double quote doubled. */
  function EscapeQuotes(s: string): (r: string)
    ensures forall c :: c != '"' ==> (c in r <==> c in s)
    ensures '"' !in s ==> r == s
  {
    if s == [] then []
    else (if s[0] == '"' then "\"\"" else [s[0]]) + EscapeQuotes(s[1..])
  }

  /** `s.replace(/x/g, '')`: every occurrence of `x` removed. */
  function RemoveChar(s: string, x: char): (r: string)
    ensures x !in r
    ensures forall c :: c != x ==> (c in r <==> c in s)
    ensures x !in s ==> r == s
  {
    if s == [] then []
    else (if s[0] == x then [] else [s[0]]) + RemoveChar(s[1..], x)
  }

  /** Decimal digits of a number, as `String(n)` prints a non-negative integer. */
  function NatToString(n: nat): (r: string)
    ensures |r| >= 1
    ensures forall i :: 0 <= i < |r| ==> '0' <= r[i] <= '9'
  {
    if n < 10 then [('0' as int + n) as char]
    else NatToString(n / 10) + [('0' as int + n % 10) as char]
  }

  /** Different numbers print differently. */
  lemma {:induction false} NatToStringInjective(a: nat, b: nat)
    requires NatToString(a) == NatToString(b)
    ensures a == b
  {
    var s := NatToString(a);
    if a >= 10 && b >= 10 {
      assert s[..|s| - 1] == NatToString(a / 10) && s[..|s| - 1] == NatToString(b / 10);
      NatToStringInjective(a / 10, b / 10);
      assert s[|s| - 1] == ('0' as int + a % 10) as char == ('0' as int + b % 10) as char;
    }
  }

  /** Concatenation is associative. */
  lemma AppendAssociative<T>(a: seq<T>, b: seq<T>, c: seq<T>)
    ensures (a + b) + c == a + (b + c)
  {
  }

  /** A character that is in no piece and not in the separator is not in the join. */
  lemma {:induction false} JoinExcludes(parts: seq<string>, sep: string, c: char)
    requires c !in sep
    requires forall i :: 0 <= i < |parts| ==> c !in parts[i]
    ensures c !in Join(parts, sep)
  {
    if |parts| > 1 {
      JoinExcludes(parts[1..], sep, c);
    }
  }

  /** A join starts with the first character of its first piece. */
  lemma JoinHead(parts: seq<string>, sep: string)
    requires parts != [] && parts[0] != []
    ensures Join(parts, sep) != [] && Join(parts, sep)[0] == parts[0][0]
  {
    if |parts| > 1 {
      assert Join(parts, sep) == parts[0] + (sep + Join(parts[1..], sep));
    }
  }

  /** Removing a character distributes over concatenation. */
  lemma {:induction false} RemoveCharAppend(a: string, b: string, x: char)
    ensures RemoveChar(a + b, x) == RemoveChar(a, x) + RemoveChar(b, x)
  {
    if a == [] {
      assert a + b == b;
    } else {
      var head := if a[0] == x then [] else [a[0]];
      calc {
        RemoveChar(a + b, x);
        { assert (a + b)[0] == a[0] && (a + b)[1..] == a[1..] + b; }
        head + RemoveChar(a[1..] + b, x);
        { RemoveCharAppend(a[1..], b, x); }
        head + (RemoveChar(a[1..], x) + RemoveChar(b, x));
        (head + RemoveChar(a[1..], x)) + RemoveChar(b, x);
        RemoveChar(a, x) + RemoveChar(b, x);
      }
    }
  }
}
