/**
 * String scanning, splitting, joining and ordering with the meaning of the C++
 * standard-library calls that the logger, the HTTP server and the launcher use
 * (`std::string::find`, `find_first_of`, `substr`, comparison of text values).
 */
module Text {
  import opened Wrappers

  type String = seq<char>

  /** The pattern `p` occurs in `s` starting at index `i`. */
  predicate OccursAt(s: String, p: String, i: nat) {
    i + |p| <= |s| && s[i..i + |p|] == p
  }

  /** `i` is the first index at which `p` occurs in `s`. */
  ghost predicate FirstOccurrence(s: String, p: String, i: nat) {
    OccursAt(s, p, i) && forall j: nat :: j < i ==> !OccursAt(s, p, j)
  }

  /** `p` does not occur anywhere in `s`. */
  ghost predicate Absent(s: String, p: String) {
    forall j: nat :: !OccursAt(s, p, j)
  }

  /** `std::string::find(p, from)`: the first index at or after `from` where `p` occurs; `None` is `npos`. */
  function Find(s: String, p: String, from: nat): (r: Option<nat>)
    ensures r.Some? ==> from <= r.value && OccursAt(s, p, r.value)
    ensures r.Some? ==> forall j: nat :: from <= j < r.value ==> !OccursAt(s, p, j)
    ensures r.None? ==> forall j: nat :: from <= j ==> !OccursAt(s, p, j)
    decreases |s| - from
  {
    if from + |p| > |s| then None
    else if s[from..from + |p|] == p then Some(from)
    else Find(s, p, from + 1)
  }

  /** Searching from 0, `find` reports exactly the first occurrence, or `npos` when there is none. */
  lemma FindFromStart(s: String, p: String)
    ensures Find(s, p, 0).Some? ==> FirstOccurrence(s, p, Find(s, p, 0).value)
    ensures Find(s, p, 0).None? <==> Absent(s, p)
  {
  }

  /** The first occurrence of a pattern is unique. */
  lemma FirstOccurrenceUnique(s: String, p: String, i: nat, j: nat)
    requires FirstOccurrence(s, p, i) && FirstOccurrence(s, p, j)
    ensures i == j
  {
  }

  /** `std::string::find_first_of(cs, from)` (and `find(c, from)` with `cs == {c}`). */
  function FindFirstOf(s: String, cs: set<char>, from: nat): (r: Option<nat>)
    ensures r.Some? ==> from <= r.value < |s| && s[r.value] in cs
    ensures r.Some? ==> forall j :: from <= j < r.value ==> s[j] !in cs
    ensures r.None? ==> forall j :: from <= j < |s| ==> s[j] !in cs
    decreases |s| - from
  {
    if from >= |s| then None
    else if s[from] in cs then Some(from)
    else FindFirstOf(s, cs, from + 1)
  }

  /** Find yields the first position, at or after `from`, where the pattern occurs. */
  lemma FindAt(s: String, p: String, from: nat, i: nat)
    requires from <= i && OccursAt(s, p, i)
    requires forall j: nat :: from <= j < i ==> !OccursAt(s, p, j)
    ensures Find(s, p, from) == Some(i)
  {
  }

  /** FindFirstOf yields the first position, at or after `from`, holding one of the characters. */
  lemma FindFirstOfAt(s: String, cs: set<char>, from: nat, i: nat)
    requires from <= i < |s| && s[i] in cs
    requires forall j :: from <= j < i ==> s[j] !in cs
    ensures FindFirstOf(s, cs, from) == Some(i)
  {
  }

  /** A one-character pattern occurs exactly where that character stands. */
  lemma OccursAtChar(s: String, c: char, i: nat)
    ensures OccursAt(s, [c], i) <==> i < |s| && s[i] == c
  {
    if i < |s| && s[i] == c {
      assert s[i..i + 1] == [c];
    }
  }

  /** An occurrence of `p` at `i` fixes the characters `s[i + k]`. */
  lemma OccursAtChars(s: String, p: String, i: nat)
    requires OccursAt(s, p, i)
    ensures forall k :: 0 <= k < |p| ==> s[i + k] == p[k]
  {
    forall k | 0 <= k < |p| ensures s[i + k] == p[k] {
      assert s[i..i + |p|][k] == p[k];
    }
  }

  /** `substr(from, find('"', from) - from)`: the text from `from` up to the next quote, if there is one. */
  function Quoted(s: String, from: nat): (r: Option<String>)
    ensures r.Some? <==> Find(s, "\"", from).Some?
    ensures r.Some? ==> '"' !in r.value && from + |r.value| < |s| && s[from + |r.value|] == '"'
    ensures r.Some? ==> r.value == s[from..from + |r.value|]
  {
    match Find(s, "\"", from)
    case None => None
    case Some(e) =>
      forall k | 0 <= k < e - from ensures s[from..e][k] != '"' {
        assert !OccursAt(s, "\"", from + k);
      }
      Some(s[from..e])
  }

  /** `std::string::substr(0, n)`: at most the first `n` characters. */
  function Prefix(s: String, n: nat): (r: String)
    ensures |r| == if n <= |s| then n else |s|
    ensures r <= s
  {
    if n <= |s| then s[..n] else s
  }

  /** The items separated by one `sep` each, with no separator before the first or after the last. */
  function Join(items: seq<String>, sep: char): String
  {
    if |items| == 0 then []
    else if |items| == 1 then items[0]
    else items[0] + [sep] + Join(items[1..], sep)
  }

  /** Appending one more item appends one separator and the item. */
  lemma {:induction false} JoinSnoc(items: seq<String>, x: String, sep: char)
    requires items != []
    ensures Join(items + [x], sep) == Join(items, sep) + [sep] + x
  {
    if |items| == 1 {
      assert (items + [x])[1..] == [x];
    } else {
      assert (items + [x])[1..] == items[1..] + [x];
      JoinSnoc(items[1..], x, sep);
    }
  }

  /** Splits `s` at every `sep`; the pieces between separators are kept, empty ones included. */
  function Split(s: String, sep: char): (r: seq<String>)
    ensures |r| >= 1
    decreases |s|
  {
    match FindFirstOf(s, {sep}, 0)
    case None => [s]
    case Some(i) => [s[..i]] + Split(s[i + 1..], sep)
  }

  /** Joining the pieces of a split gives the text back. */
  lemma {:induction false} JoinSplit(s: String, sep: char)
    ensures Join(Split(s, sep), sep) == s
    decreases |s|
  {
    match FindFirstOf(s, {sep}, 0)
    case None =>
    case Some(i) =>
      var rest := Split(s[i + 1..], sep);
      JoinSplit(s[i + 1..], sep);
      assert Split(s, sep) == [s[..i]] + rest;
      assert ([s[..i]] + rest)[1..] == rest;
      assert s == s[..i] + [sep] + s[i + 1..];
  }

  /** Splitting the join of separator-free items gives the items back. */
  lemma {:induction false} SplitJoin(items: seq<String>, sep: char)
    requires items != []
    requires forall k :: 0 <= k < |items| ==> sep !in items[k]
    ensures Split(Join(items, sep), sep) == items
  {
    var s := Join(items, sep);
    if |items| == 1 {
      assert FindFirstOf(s, {sep}, 0).None?;
    } else {
      var tail := Join(items[1..], sep);
      assert s == items[0] + [sep] + tail;
      var r := FindFirstOf(s, {sep}, 0);
      assert s[|items[0]|] == sep;
      assert r.Some? && r.value == |items[0]| by {
        forall j | 0 <= j < |items[0]| ensures s[j] !in {sep} {
          assert s[j] == items[0][j];
        }
      }
      assert s[..|items[0]|] == items[0];
      assert s[|items[0]| + 1..] == tail;
      SplitJoin(items[1..], sep);
      assert [items[0]] + items[1..] == items;
    }
  }

  /** Number of occurrences of the character `c` in `s`. */
  function Occurrences(s: String, c: char): nat
  {
    if s == [] then 0 else (if s[0] == c then 1 else 0) + Occurrences(s[1..], c)
  }

  lemma {:induction false} OccurrencesConcat(a: String, b: String, c: char)
    ensures Occurrences(a + b, c) == Occurrences(a, c) + Occurrences(b, c)
  {
    if a == [] {
      assert a + b == b;
    } else {
      assert (a + b)[1..] == a[1..] + b;
      OccurrencesConcat(a[1..], b, c);
    }
  }

  /** Total occurrences of `c` over all items. */
  function OccurrencesIn(items: seq<String>, c: char): nat
  {
    if items == [] then 0 else Occurrences(items[0], c) + OccurrencesIn(items[1..], c)
  }

  /** Joining n items with `sep` adds exactly n - 1 separators to what the items hold. */
  lemma {:induction false} JoinSeparatorCount(items: seq<String>, sep: char)
    requires items != []
    ensures Occurrences(Join(items, sep), sep) == OccurrencesIn(items, sep) + |items| - 1
  {
    if |items| == 1 {
      assert items[1..] == [];
    } else {
      JoinSeparatorCount(items[1..], sep);
      OccurrencesConcat(items[0] + [sep], Join(items[1..], sep), sep);
      OccurrencesConcat(items[0], [sep], sep);
      assert Occurrences([sep], sep) == 1 by {
        assert [sep][1..] == [];
      }
    }
  }

  /** A non-empty join ends with the last item. */
  lemma {:induction false} JoinEndsWithLast(items: seq<String>, sep: char)
    requires items != []
    ensures |Join(items, sep)| >= |items[|items| - 1]|
    ensures Join(items, sep)[|Join(items, sep)| - |items[|items| - 1]|..] == items[|items| - 1]
  {
    if |items| > 1 {
      JoinEndsWithLast(items[1..], sep);
      var t := Join(items[1..], sep);
      var last := items[|items| - 1];
      assert items[1..][|items[1..]| - 1] == last;
      var s := items[0] + [sep] + t;
      assert s[|s| - |last|..] == t[|t| - |last|..];
    }
  }

  // ---------------------------------------------------------------------------
  // Ordering of text values (SQLite's BINARY collation, std::map key order)
  // ---------------------------------------------------------------------------

  /** Lexicographic order by character code; a proper prefix sorts first. */
  predicate LexLe(a: String, b: String)
    decreases |a|
  {
    a == [] || (b != [] && (a[0] < b[0] || (a[0] == b[0] && LexLe(a[1..], b[1..]))))
  }

  /** Strictly before in lexicographic order. */
  predicate LexLt(a: String, b: String) {
    LexLe(a, b) && a != b
  }

  lemma {:induction false} LexLeReflexive(a: String)
    ensures LexLe(a, a)
  {
    if a != [] {
      LexLeReflexive(a[1..]);
    }
  }

  lemma {:induction false} LexLeTotal(a: String, b: String)
    ensures LexLe(a, b) || LexLe(b, a)
  {
    if a != [] && b != [] && a[0] == b[0] {
      LexLeTotal(a[1..], b[1..]);
    }
  }

  lemma {:induction false} LexLeAntisymmetric(a: String, b: String)
    requires LexLe(a, b) && LexLe(b, a)
    ensures a == b
  {
    if a != [] && b != [] {
      LexLeAntisymmetric(a[1..], b[1..]);
      assert a == [a[0]] + a[1..] && b == [b[0]] + b[1..];
    }
  }

  lemma {:induction false} LexLeTransitive(a: String, b: String, c: String)
    requires LexLe(a, b) && LexLe(b, c)
    ensures LexLe(a, c)
  {
    if a != [] && b != [] && c != [] && a[0] == b[0] && b[0] == c[0] {
      LexLeTransitive(a[1..], b[1..], c[1..]);
    }
  }

  /** The least element of a finite non-empty set of texts (the key std::map visits first). */
  ghost function LeastKey(keys: set<String>): (k: String)
    requires keys != {}
    ensures k in keys && forall k' :: k' in keys ==> LexLe(k, k')
    decreases |keys|
  {
    var x :| x in keys;
    if keys == {x} then
      LexLeReflexive(x);
      x
    else
      var rest := keys - {x};
      var m := LeastKey(rest);
      LeastOfMore(rest, m, x);
      assert rest + {x} == keys;
      if LexLe(m, x) then m else x
  }

  /** The least of a set and one more element is the smaller of the two. */
  lemma LeastOfMore(rest: set<String>, m: String, x: String)
    requires m in rest && forall k' :: k' in rest ==> LexLe(m, k')
    ensures var least := if LexLe(m, x) then m else x;
            least in rest + {x} && forall k' :: k' in rest + {x} ==> LexLe(least, k')
  {
    LexLeTotal(m, x);
    LexLeReflexive(x);
    if !LexLe(m, x) {
      forall k' | k' in rest ensures LexLe(x, k') {
        LexLeTransitive(x, m, k');
      }
    }
  }

  // ---------------------------------------------------------------------------
  // Decimal text of counters (`operator<<` on an integer)
  // ---------------------------------------------------------------------------

  predicate IsDigit(c: char) {
    48 <= c as int <= 57
  }

  function DigitChar(d: nat): (c: char)
    requires d < 10
    ensures IsDigit(c)
  {
    (48 + d) as char
  }

  /** The decimal digits of `n`, most significant first, with no leading zero. */
  function Decimal(n: nat): (r: String)
    ensures r != [] && forall k :: 0 <= k < |r| ==> IsDigit(r[k])
    decreases n
  {
    if n < 10 then [DigitChar(n)] else Decimal(n / 10) + [DigitChar(n % 10)]
  }

  /** The value that a reader of decimal digits obtains. */
  function DecimalValue(s: String): nat
    requires forall k :: 0 <= k < |s| ==> IsDigit(s[k])
  {
    if s == [] then 0
    else
      assert IsDigit(s[|s| - 1]);
      10 * DecimalValue(s[..|s| - 1]) + (s[|s| - 1] as int - 48)
  }

  /** Reading back the decimal text of a number gives the number. */
  lemma {:induction false} DecimalRoundTrip(n: nat)
    ensures DecimalValue(Decimal(n)) == n
    decreases n
  {
    if n >= 10 {
      DecimalRoundTrip(n / 10);
      var d := Decimal(n / 10);
      assert (d + [DigitChar(n % 10)])[..|d|] == d;
    }
  }
}
