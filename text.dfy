/**
 * The two ways the script splits text: `s.split(sep)` on a fixed separator
 * (every separator starts a new, possibly empty, piece) and `s.split()` with
 * no argument (runs of whitespace separate non-empty fields), together with
 * the joins that undo them.
 */
module Text {

  /** `sep.join(parts)`. */
  function Join(parts: seq<string>, sep: char): string {
    if parts == [] then ""
    else if |parts| == 1 then parts[0]
    else parts[0] + [sep] + Join(parts[1..], sep)
  }

  /** `s.split(sep)`: every separator ends one piece and starts the next. */
  function Split(s: string, sep: char): (parts: seq<string>)
    ensures parts != []
  {
    if s == [] then [""]
    else
      var rest := Split(s[1..], sep);
      if s[0] == sep then [""] + rest
      else [[s[0]] + rest[0]] + rest[1..]
  }

  /** A split has one more piece than there are separators in `s`, and no piece contains the separator. */
  lemma {:induction false} SplitPieces(s: string, sep: char)
    ensures |Split(s, sep)| == multiset(s)[sep] + 1
    ensures forall i :: 0 <= i < |Split(s, sep)| ==> sep !in Split(s, sep)[i]
  {
    if s != [] {
      SplitPieces(s[1..], sep);
      assert s == [s[0]] + s[1..];
      var rest := Split(s[1..], sep);
      var parts := Split(s, sep);
      if s[0] != sep {
        forall i | 0 <= i < |parts| ensures sep !in parts[i] {
          if i > 0 {
            assert parts[i] == rest[i];
          }
        }
      }
    }
  }

  /** Joining the pieces of a split restores the string. */
  lemma {:induction false} JoinSplit(s: string, sep: char)
    ensures Join(Split(s, sep), sep) == s
  {
    if s != [] {
      var rest := Split(s[1..], sep);
      JoinSplit(s[1..], sep);
      if s[0] == sep {
        JoinCons("", rest, sep);
      } else if |rest| > 1 {
        JoinCons([s[0]] + rest[0], rest[1..], sep);
        JoinCons(rest[0], rest[1..], sep);
        assert rest == [rest[0]] + rest[1..];
      }
      assert s == [s[0]] + s[1..];
    }
  }

  lemma JoinCons(p: string, rest: seq<string>, sep: char)
    requires rest != []
    ensures Join([p] + rest, sep) == p + [sep] + Join(rest, sep)
  {
    assert ([p] + rest)[1..] == rest;
  }

  /** Splitting a join of separator-free pieces gives the pieces back. */
  lemma {:induction false} SplitJoin(parts: seq<string>, sep: char)
    requires parts != []
    requires forall i :: 0 <= i < |parts| ==> sep !in parts[i]
    ensures Split(Join(parts, sep), sep) == parts
  {
    if |parts| == 1 {
      SplitFree(parts[0], sep);
    } else {
      SplitJoin(parts[1..], sep);
      SplitCons(parts[0], Join(parts[1..], sep), sep);
    }
  }

  lemma {:induction false} SplitFree(s: string, sep: char)
    requires sep !in s
    ensures Split(s, sep) == [s]
  {
    if s != [] {
      SplitFree(s[1..], sep);
      assert s == [s[0]] + s[1..];
    }
  }

  lemma {:induction false} SplitCons(p: string, t: string, sep: char)
    requires sep !in p
    ensures Split(p + [sep] + t, sep) == [p] + Split(t, sep)
  {
    if p == [] {
      assert (p + [sep] + t)[1..] == t;
    } else {
      assert (p + [sep] + t)[1..] == p[1..] + [sep] + t;
      SplitCons(p[1..], t, sep);
      assert p == [p[0]] + p[1..];
    }
  }

  /** Joining a piece on at the end adds one separator before it. */
  lemma {:induction false} JoinSnoc(parts: seq<string>, last: string, sep: char)
    requires parts != []
    ensures Join(parts + [last], sep) == Join(parts, sep) + [sep] + last
  {
    if |parts| > 1 {
      JoinSnoc(parts[1..], last, sep);
      assert (parts + [last])[1..] == parts[1..] + [last];
    }
  }

  lemma JoinLast(parts: seq<string>, sep: char)
    requires |parts| > 1
    ensures Join(parts, sep) == Join(parts[..|parts| - 1], sep) + [sep] + parts[|parts| - 1]
  {
    assert parts == parts[..|parts| - 1] + [parts[|parts| - 1]];
    JoinSnoc(parts[..|parts| - 1], parts[|parts| - 1], sep);
  }

  /** The whitespace characters of ASCII: space, tab, line feed, carriage return, vertical tab, form feed. */
  predicate IsSpace(c: char) {
    c == ' ' || c == '\t' || c == '\n' || c == '\r' || c == '\U{000B}' || c == '\U{000C}'
  }

  /** A field of a whitespace split: non-empty and free of whitespace. */
  ghost predicate IsField(w: string) {
    w != [] && forall i :: 0 <= i < |w| ==> !IsSpace(w[i])
  }

  /** The length of the longest prefix of `s` that holds no whitespace. */
  function WordLength(s: string): (n: nat)
    ensures n <= |s|
  {
    if s == [] || IsSpace(s[0]) then 0 else 1 + WordLength(s[1..])
  }

  /** The word is whitespace-free and ends at whitespace or at the end of `s`. */
  lemma {:induction false} WordLengthMaximal(s: string)
    ensures forall i :: 0 <= i < WordLength(s) ==> !IsSpace(s[i])
    ensures WordLength(s) < |s| ==> IsSpace(s[WordLength(s)])
  {
    if s != [] && !IsSpace(s[0]) {
      WordLengthMaximal(s[1..]);
    }
  }

  /**
   * `s.split()`: the maximal whitespace-free runs of `s`, in order. Leading,
   * trailing and repeated whitespace produce no empty fields.
   */
  function Fields(s: string): (fs: seq<string>)
    decreases |s|
  {
    if s == [] then []
    else if IsSpace(s[0]) then Fields(s[1..])
    else
      var n := WordLength(s);
      [s[..n]] + Fields(s[n..])
  }

  /** Every field of a whitespace split is non-empty and free of whitespace. */
  lemma {:induction false} FieldsAreFields(s: string)
    ensures forall i :: 0 <= i < |Fields(s)| ==> IsField(Fields(s)[i])
    decreases |s|
  {
    if s != [] {
      if IsSpace(s[0]) {
        FieldsAreFields(s[1..]);
      } else {
        var n := WordLength(s);
        WordLengthMaximal(s);
        FieldsAreFields(s[n..]);
        var fs := Fields(s);
        forall i | 0 <= i < |fs| ensures IsField(fs[i]) {
          if i > 0 {
            assert fs[i] == Fields(s[n..])[i - 1];
          }
        }
      }
    }
  }

  /** A single field splits into itself. */
  lemma FieldsOfField(w: string)
    requires IsField(w)
    ensures Fields(w) == [w]
  {
    WordLengthOf(w, "");
    assert w + "" == w;
    assert w[|w|..] == [];
  }

  /** Adding characters after a word that already ends inside `a` does not change where it ends. */
  lemma {:induction false} WordLengthAppend(a: string, t: string)
    requires WordLength(a) < |a| || t == [] || IsSpace(t[0])
    ensures WordLength(a + t) == WordLength(a)
  {
    if a != [] && !IsSpace(a[0]) {
      assert (a + t)[1..] == a[1..] + t;
      WordLengthAppend(a[1..], t);
    }
  }

  /** Any whitespace character splits a line into two halves whose fields are split separately. */
  lemma {:induction false} FieldsSplitAt(a: string, c: char, b: string)
    requires IsSpace(c)
    ensures Fields(a + [c] + b) == Fields(a) + Fields(b)
    decreases |a|
  {
    var s := a + [c] + b;
    if a == [] {
      assert s[1..] == b;
    } else if IsSpace(a[0]) {
      assert s[1..] == a[1..] + [c] + b;
      FieldsSplitAt(a[1..], c, b);
    } else {
      var m := WordLength(a);
      WordLengthMaximal(a);
      WordLengthAppend(a, [c] + b);
      assert s == a + ([c] + b);
      assert s[..m] == a[..m];
      assert s[m..] == a[m..] + [c] + b;
      FieldsSplitAt(a[m..], c, b);
    }
  }

  /** Whitespace before a line adds no fields. */
  lemma {:induction false} FieldsLeadingSpace(g: string, s: string)
    requires forall i :: 0 <= i < |g| ==> IsSpace(g[i])
    ensures Fields(g + s) == Fields(s)
  {
    if g != [] {
      assert (g + s)[1..] == g[1..] + s;
      FieldsLeadingSpace(g[1..], s);
    } else {
      assert g + s == s;
    }
  }

  /**
   * The line `gaps[0] + fields[0] + gaps[1] + ... + fields[n - 1] + gaps[n]`:
   * fields separated, preceded and followed by runs of whitespace.
   */
  function Spaced(fields: seq<string>, gaps: seq<string>): string
    requires |gaps| == |fields| + 1
  {
    if fields == [] then gaps[0]
    else gaps[0] + fields[0] + Spaced(fields[1..], gaps[1..])
  }

  /** Whitespace runs that may lay out `n` fields: the inner ones are non-empty. */
  ghost predicate IsGaps(gaps: seq<string>, n: nat) {
    && |gaps| == n + 1
    && (forall i, j :: 0 <= i < |gaps| && 0 <= j < |gaps[i]| ==> IsSpace(gaps[i][j]))
    && (forall i :: 0 < i < n ==> gaps[i] != [])
  }

  /**
   * `split()` recovers the fields of a line however they are laid out:
   * tabs or several spaces between them, whitespace at either end, a line end.
   */
  lemma {:induction false} FieldsSpaced(fields: seq<string>, gaps: seq<string>)
    requires forall i :: 0 <= i < |fields| ==> IsField(fields[i])
    requires IsGaps(gaps, |fields|)
    ensures Fields(Spaced(fields, gaps)) == fields
  {
    var g := gaps[0];
    assert forall j :: 0 <= j < |g| ==> IsSpace(g[j]) by {
      assert forall j :: 0 <= j < |g| ==> IsSpace(gaps[0][j]);
    }
    if fields == [] {
      FieldsLeadingSpace(g, []);
      assert g + [] == g;
    } else {
      var w, rest := fields[0], Spaced(fields[1..], gaps[1..]);
      assert IsGaps(gaps[1..], |fields| - 1) by {
        forall i, j | 0 <= i < |gaps[1..]| && 0 <= j < |gaps[1..][i]| ensures IsSpace(gaps[1..][i][j]) {
          assert gaps[1..][i] == gaps[i + 1];
        }
      }
      FieldsSpaced(fields[1..], gaps[1..]);
      assert IsField(w);
      FieldsLeadingSpace(g, w + rest);
      assert g + w + rest == g + (w + rest);
      if rest == [] {
        assert w + rest == w;
        FieldsOfField(w);
      } else {
        assert IsSpace(rest[0]) by {
          RestStartsWithSpace(fields[1..], gaps[1..]);
        }
        FieldsSplitAt(w, rest[0], rest[1..]);
        assert w + rest == w + [rest[0]] + rest[1..];
        assert rest == [] + [rest[0]] + rest[1..];
        FieldsSplitAt([], rest[0], rest[1..]);
        FieldsOfField(w);
      }
    }
  }

  lemma RestStartsWithSpace(fields: seq<string>, gaps: seq<string>)
    requires |gaps| == |fields| + 1
    requires forall j :: 0 <= j < |gaps[0]| ==> IsSpace(gaps[0][j])
    requires fields != [] ==> gaps[0] != []
    requires Spaced(fields, gaps) != []
    ensures IsSpace(Spaced(fields, gaps)[0])
  {
    if fields != [] {
      assert Spaced(fields, gaps)[0] == gaps[0][0];
    }
  }

  /** The line end that reading a file line by line leaves in place adds no field. */
  lemma FieldsIgnoreLineEnd(line: string)
    ensures Fields(line + "\n") == Fields(line)
  {
    FieldsSplitAt(line, '\n', "");
    assert line + "\n" == line + ['\n'] + "";
    assert Fields("") == [];
  }

  /** `" ".join(fields)`. */
  function Unwords(fields: seq<string>): string {
    Join(fields, ' ')
  }

  /** Splitting fields joined with single spaces gives the fields back. */
  lemma {:induction false} FieldsUnwords(fields: seq<string>)
    requires forall i :: 0 <= i < |fields| ==> IsField(fields[i])
    ensures Fields(Unwords(fields)) == fields
  {
    if |fields| == 1 {
      var w := fields[0];
      WordLengthOf(w, "");
      assert w + "" == w;
      assert w[|w|..] == [];
    } else if |fields| > 1 {
      var w, rest := fields[0], Unwords(fields[1..]);
      var s := w + [' '] + rest;
      FieldsUnwords(fields[1..]);
      WordLengthOf(w, [' '] + rest);
      assert s == w + ([' '] + rest);
      assert s[..|w|] == w;
      assert s[|w|..] == [' '] + rest;
      assert ([' '] + rest)[1..] == rest;
    }
  }

  lemma {:induction false} WordLengthOf(w: string, t: string)
    requires forall i :: 0 <= i < |w| ==> !IsSpace(w[i])
    requires t == [] || IsSpace(t[0])
    ensures WordLength(w + t) == |w|
  {
    if w != [] {
      assert (w + t)[1..] == w[1..] + t;
      WordLengthOf(w[1..], t);
    }
  }
}
