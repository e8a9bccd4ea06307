/** The few JavaScript string operations the scrapers rely on, stated over
    `string` (a sequence of `char`): lodash's `_.toLower` restricted to ASCII,
    `String.prototype.split` on a single character, `Array.prototype.join`,
    and the `filepath.split('/').slice(-1)` idiom. */
module Text {

  datatype Option<+T> = None | Some(value: T)

  predicate IsUpper(c: char) {
    'A' <= c <= 'Z'
  }

  function LowerChar(c: char): char {
    if IsUpper(c) then (c as int + 32) as char else c
  }

  /** `_.toLower` / `toLocaleLowerCase`, ASCII letters only: every upper-case
      letter becomes its lower-case letter, every other character is kept. */
  function Lower(s: string): (r: string)
    ensures |r| == |s|
    ensures forall i :: 0 <= i < |s| && IsUpper(s[i]) ==> r[i] as int == s[i] as int + 32
    ensures forall i :: 0 <= i < |s| && !IsUpper(s[i]) ==> r[i] == s[i]
  {
    seq(|s|, i requires 0 <= i < |s| => LowerChar(s[i]))
  }

  /** Two characters that are the same letter in either case, or the same
      character. */
  predicate SameIgnoringCase(c: char, d: char) {
    || c == d
    || (IsUpper(c) && d as int == c as int + 32)
    || (IsUpper(d) && c as int == d as int + 32)
  }

  /** Case-insensitive equality, character by character. */
  predicate EqualIgnoringCase(a: string, b: string) {
    |a| == |b| && forall i :: 0 <= i < |a| ==> SameIgnoringCase(a[i], b[i])
  }

  /** Lower-casing both sides, as the district matching does, compares them
      ignoring (ASCII) case, in both directions. */
  lemma LowerEqualIff(a: string, b: string)
    ensures Lower(a) == Lower(b) <==> EqualIgnoringCase(a, b)
  {
    if Lower(a) == Lower(b) {
      forall i | 0 <= i < |a|
        ensures SameIgnoringCase(a[i], b[i])
      {
        assert Lower(a)[i] == Lower(b)[i];
      }
    }
    if EqualIgnoringCase(a, b) {
      forall i | 0 <= i < |a|
        ensures Lower(a)[i] == Lower(b)[i]
      {
        assert SameIgnoringCase(a[i], b[i]);
      }
    }
  }

  /** `s.replace(/x/g, y)`: every occurrence of one character replaced by `y`,
      every other character kept. */
  function ReplaceAll(s: string, x: char, y: char): (r: string)
    ensures |r| == |s|
    ensures forall i :: 0 <= i < |s| && s[i] == x ==> r[i] == y
    ensures forall i :: 0 <= i < |s| && s[i] != x ==> r[i] == s[i]
  {
    seq(|s|, i requires 0 <= i < |s| => if s[i] == x then y else s[i])
  }

  /** `s.replace(/x/g, '')`: every occurrence of one character deleted, each
      other character kept as often as it occurs. */
  function Remove(s: string, x: char): (r: string)
    ensures x !in r
    ensures forall c :: c != x ==> multiset(r)[c] == multiset(s)[c]
  {
    if |s| == 0 then ""
    else
      assert s == [s[0]] + s[1..];
      if s[0] == x then Remove(s[1..], x)
      else [s[0]] + Remove(s[1..], x)
  }

  /** Removing distributes over concatenation, so the kept characters stay
      in their order. */
  lemma {:induction false} RemoveConcat(a: string, b: string, x: char)
    ensures Remove(a + b, x) == Remove(a, x) + Remove(b, x)
    decreases |a|
  {
    if |a| > 0 {
      assert (a + b)[0] == a[0] && (a + b)[1..] == a[1..] + b;
      RemoveConcat(a[1..], b, x);
    } else {
      assert a + b == b;
    }
  }

  /** A string without the character is left as it is. */
  lemma {:induction false} RemoveAbsent(s: string, x: char)
    requires x !in s
    ensures Remove(s, x) == s
    decreases |s|
  {
    if |s| > 0 {
      RemoveAbsent(s[1..], x);
      assert s == [s[0]] + s[1..];
    }
  }

  /** A prefix one longer is the shorter prefix and the next element. */
  lemma TakeOneMore<T>(s: seq<T>, i: nat)
    requires i < |s|
    ensures s[..i + 1] == s[..i] + [s[i]]
  {
  }

  /** `s.split(sep)` for a one-character separator: the pieces between
      separators, always at least one (`"".split(",")` is `[""]`). */
  function Split(s: string, sep: char): (r: seq<string>)
    ensures |r| >= 1
    decreases |s|
  {
    if |s| == 0 then [""]
    else
      var rest := Split(s[1..], sep);
      if s[0] == sep then [""] + rest
      else [[s[0]] + rest[0]] + rest[1..]
  }

  /** `cells.join(sep)`: the cells with a separator between each two. */
  function Join(cells: seq<string>, sep: char): (r: string)
    ensures |cells| > 0 ==> |r| >= |cells| - 1 + |cells[0]|
  {
    if |cells| == 0 then ""
    else if |cells| == 1 then cells[0]
    else cells[0] + [sep] + Join(cells[1..], sep)
  }

  /** A join holds one separator between each two cells, so exactly
      `|cells| - 1` of them when no cell holds the separator. */
  lemma {:induction false} JoinSeparatorCount(cells: seq<string>, sep: char)
    requires |cells| > 0
    ensures multiset(Join(cells, sep))[sep] >= |cells| - 1
    ensures (forall i :: 0 <= i < |cells| ==> sep !in cells[i]) ==> multiset(Join(cells, sep))[sep] == |cells| - 1
    decreases |cells|
  {
    if |cells| > 1 {
      JoinSeparatorCount(cells[1..], sep);
      assert Join(cells, sep) == cells[0] + [sep] + Join(cells[1..], sep);
      assert multiset(Join(cells, sep)) == multiset(cells[0]) + multiset([sep]) + multiset(Join(cells[1..], sep));
      if forall i :: 0 <= i < |cells| ==> sep !in cells[i] {
        assert sep !in cells[0];
        assert forall i :: 0 <= i < |cells| - 1 ==> cells[1..][i] == cells[i + 1];
      }
    }
  }

  /** A cell followed by at least one more is written, then the separator. */
  lemma JoinCons(cell: string, rest: seq<string>, sep: char)
    requires |rest| > 0
    ensures Join([cell] + rest, sep) == cell + [sep] + Join(rest, sep)
  {
    assert ([cell] + rest)[1..] == rest;
  }

  /** The first piece of a split is the longest prefix free of the separator. */
  lemma {:induction false} SplitHead(s: string, sep: char)
    ensures |Split(s, sep)[0]| <= |s|
    ensures Split(s, sep)[0] == s[..|Split(s, sep)[0]|]
    ensures sep !in Split(s, sep)[0]
    ensures |Split(s, sep)[0]| < |s| ==> s[|Split(s, sep)[0]|] == sep
    decreases |s|
  {
    if |s| > 0 && s[0] != sep {
      SplitHead(s[1..], sep);
    }
  }

  /** A split has one piece more than the string has separators, and no
      piece holds the separator. */
  lemma {:induction false} SplitPieces(s: string, sep: char)
    ensures |Split(s, sep)| == multiset(s)[sep] + 1
    ensures forall i :: 0 <= i < |Split(s, sep)| ==> sep !in Split(s, sep)[i]
    decreases |s|
  {
    if |s| > 0 {
      SplitPieces(s[1..], sep);
      assert s == [s[0]] + s[1..];
      var rest := Split(s[1..], sep);
      if s[0] != sep {
        assert Split(s, sep) == PrependToFirst(s[0], rest);
      }
    }
  }

  /** A string without the separator splits into itself alone. */
  lemma {:induction false} SplitNoSeparator(s: string, sep: char)
    requires sep !in s
    ensures Split(s, sep) == [s]
    decreases |s|
  {
    if |s| > 0 {
      SplitNoSeparator(s[1..], sep);
      assert [s[0]] + s[1..] == s;
    }
  }

  /** Splitting distributes over one separator occurrence. */
  lemma {:induction false} SplitAround(a: string, b: string, sep: char)
    ensures Split(a + [sep] + b, sep) == Split(a, sep) + Split(b, sep)
    decreases |a|
  {
    var s := a + [sep] + b;
    if |a| == 0 {
      assert s[1..] == b;
    } else {
      assert s[1..] == a[1..] + [sep] + b;
      SplitAround(a[1..], b, sep);
    }
  }

  /** Joining the pieces of a split gives back the string. */
  lemma {:induction false} JoinSplit(s: string, sep: char)
    ensures Join(Split(s, sep), sep) == s
    decreases |s|
  {
    if |s| > 0 {
      var rest := Split(s[1..], sep);
      JoinSplit(s[1..], sep);
      assert [s[0]] + s[1..] == s;
      if s[0] == sep {
        JoinSplitSeparator(s, rest, sep);
      } else {
        JoinSplitOther(s, rest, sep);
      }
    }
  }

  /** The step of `JoinSplit` when the string starts with the separator. */
  lemma JoinSplitSeparator(s: string, rest: seq<string>, sep: char)
    requires |s| > 0 && s[0] == sep
    requires rest == Split(s[1..], sep) && Join(rest, sep) == s[1..]
    ensures Join(Split(s, sep), sep) == s
  {
    assert Split(s, sep) == [""] + rest;
    JoinCons("", rest, sep);
    assert [s[0]] + s[1..] == s;
  }

  /** The step of `JoinSplit` when the string starts with another character. */
  lemma JoinSplitOther(s: string, rest: seq<string>, sep: char)
    requires |s| > 0 && s[0] != sep
    requires rest == Split(s[1..], sep) && Join(rest, sep) == s[1..]
    ensures Join(Split(s, sep), sep) == s
  {
    assert Split(s, sep) == PrependToFirst(s[0], rest);
    JoinPrependToFirst(s[0], rest, sep);
    assert [s[0]] + s[1..] == s;
  }

  /** Putting a character at the front of the first piece puts it at the
      front of the join. */
  lemma JoinPrependToFirst(x: char, pieces: seq<string>, sep: char)
    requires |pieces| >= 1
    ensures Join(PrependToFirst(x, pieces), sep) == [x] + Join(pieces, sep)
  {
    var first := [x] + pieces[0];
    if |pieces| > 1 {
      assert pieces == [pieces[0]] + pieces[1..];
      JoinCons(pieces[0], pieces[1..], sep);
      JoinCons(first, pieces[1..], sep);
    }
  }

  /** Splitting a join of separator-free cells gives back the cells. */
  lemma {:induction false} SplitJoin(cells: seq<string>, sep: char)
    requires |cells| >= 1
    requires forall i :: 0 <= i < |cells| ==> sep !in cells[i]
    ensures Split(Join(cells, sep), sep) == cells
    decreases |cells|
  {
    SplitNoSeparator(cells[0], sep);
    if |cells| > 1 {
      SplitAround(cells[0], Join(cells[1..], sep), sep);
      SplitJoin(cells[1..], sep);
      assert [cells[0]] + cells[1..] == cells;
    }
  }

  /** A join of cells has at least as many pieces as cells, and each leading
      cell free of the separator comes back as its own piece. */
  lemma {:induction false} SplitJoinPrefix(cells: seq<string>, sep: char, n: nat)
    requires n <= |cells|
    requires forall i :: 0 <= i < n ==> sep !in cells[i]
    ensures |Split(Join(cells, sep), sep)| >= |cells|
    ensures forall i :: 0 <= i < n ==> Split(Join(cells, sep), sep)[i] == cells[i]
    decreases |cells|
  {
    if |cells| > 1 {
      var rest := Join(cells[1..], sep);
      SplitAround(cells[0], rest, sep);
      SplitJoinPrefix(cells[1..], sep, if n > 0 then n - 1 else 0);
      if n > 0 {
        SplitNoSeparator(cells[0], sep);
      }
    } else if |cells| == 1 && n == 1 {
      SplitNoSeparator(cells[0], sep);
    }
  }

  /** Every character of a join is the separator or a character of a cell. */
  lemma {:induction false} JoinChars(cells: seq<string>, sep: char, c: char)
    requires c in Join(cells, sep)
    ensures c == sep || exists i :: 0 <= i < |cells| && c in cells[i]
    decreases |cells|
  {
    if |cells| > 1 {
      var rest := Join(cells[1..], sep);
      assert Join(cells, sep) == cells[0] + [sep] + rest;
      if c != sep && c !in cells[0] {
        assert c in rest;
        JoinChars(cells[1..], sep, c);
        var i :| 0 <= i < |cells| - 1 && c in cells[1..][i];
        assert c in cells[i + 1];
      }
    }
  }

  /** `path.split('/').slice(-1)[0]`: the last '/'-separated segment. */
  function LastSegment(path: string): (r: string)
    ensures '/' !in r
    ensures |r| <= |path| && path[|path| - |r|..] == r
    ensures |r| < |path| ==> path[|path| - |r| - 1] == '/'
  {
    if |path| == 0 then ""
    else if path[|path| - 1] == '/' then ""
    else LastSegment(path[..|path| - 1]) + [path[|path| - 1]]
  }

  /** The same segment as the literal `split('/')` followed by taking the last piece. */
  lemma {:induction false} LastSegmentIsLastPiece(path: string)
    ensures LastSegment(path) == Split(path, '/')[|Split(path, '/')| - 1]
    decreases |path|
  {
    if |path| > 0 {
      var init := path[..|path| - 1];
      var c := path[|path| - 1];
      assert path == init + [c];
      if c == '/' {
        assert path == init + ['/'] + "";
        SplitAround(init, "", '/');
        var pieces := Split(path, '/');
        assert pieces == Split(init, '/') + [""];
        assert pieces[|pieces| - 1] == "";
        assert LastSegment(path) == "";
      } else {
        LastSegmentIsLastPiece(init);
        SplitLastAppend(init, c, '/');
        var before := Split(init, '/');
        var pieces := Split(path, '/');
        assert pieces == before[..|before| - 1] + [before[|before| - 1] + [c]];
        assert pieces[|pieces| - 1] == before[|before| - 1] + [c];
        assert LastSegment(path) == LastSegment(init) + [c];
      }
    } else {
      assert Split(path, '/') == [""];
    }
  }

  lemma {:induction false} SplitLastAppend(s: string, c: char, sep: char)
    requires c != sep
    ensures |Split(s + [c], sep)| == |Split(s, sep)|
    ensures Split(s + [c], sep) == Split(s, sep)[..|Split(s, sep)| - 1] + [Split(s, sep)[|Split(s, sep)| - 1] + [c]]
    decreases |s|
  {
    var t := s + [c];
    if |s| == 0 {
      assert t == [c] && t[1..] == "" && s == "";
      assert Split(t[1..], sep) == [""];
      assert Split(t, sep) == [[c] + ""];
      assert [c] + "" == "" + [c];
    } else {
      assert t[1..] == s[1..] + [c];
      SplitLastAppend(s[1..], c, sep);
      if s[0] == sep {
        SplitLastAppendAfterSeparator(s, c, sep);
      } else {
        SplitLastAppendInHead(s, c, sep);
      }
    }
  }

  /** The step of `SplitLastAppend` when `s` starts with the separator. */
  lemma SplitLastAppendAfterSeparator(s: string, c: char, sep: char)
    requires c != sep && |s| > 0 && s[0] == sep
    requires Split(s[1..] + [c], sep) == Split(s[1..], sep)[..|Split(s[1..], sep)| - 1] + [Split(s[1..], sep)[|Split(s[1..], sep)| - 1] + [c]]
    ensures Split(s + [c], sep) == Split(s, sep)[..|Split(s, sep)| - 1] + [Split(s, sep)[|Split(s, sep)| - 1] + [c]]
  {
    var t := s + [c];
    assert t[1..] == s[1..] + [c];
    var rest := Split(s[1..], sep);
    var rest' := Split(t[1..], sep);
    var pre, last := rest[..|rest| - 1], rest[|rest| - 1];
    assert rest' == pre + [last + [c]];
    assert Split(s, sep) == [""] + rest;
    assert Split(t, sep) == [""] + rest';
    assert ([""] + rest)[..|rest|] == [""] + pre;
  }

  /** The step of `SplitLastAppend` when `s` starts inside its first piece. */
  lemma SplitLastAppendInHead(s: string, c: char, sep: char)
    requires c != sep && |s| > 0 && s[0] != sep
    requires Split(s[1..] + [c], sep) == Split(s[1..], sep)[..|Split(s[1..], sep)| - 1] + [Split(s[1..], sep)[|Split(s[1..], sep)| - 1] + [c]]
    ensures Split(s + [c], sep) == Split(s, sep)[..|Split(s, sep)| - 1] + [Split(s, sep)[|Split(s, sep)| - 1] + [c]]
  {
    var t := s + [c];
    assert t[1..] == s[1..] + [c];
    var rest := Split(s[1..], sep);
    var rest' := Split(t[1..], sep);
    var pre, last := rest[..|rest| - 1], rest[|rest| - 1];
    assert rest' == pre + [last + [c]];
    assert Split(s, sep) == PrependToFirst(s[0], rest);
    assert Split(t, sep) == PrependToFirst(s[0], rest');
    PrependToFirstAppendLast(s[0], rest, c);
  }

  /** The pieces of `[x] + s` when `x` is not the separator: `x` joins the
      first piece of `s`. */
  function PrependToFirst(x: char, pieces: seq<string>): seq<string>
    requires |pieces| >= 1
  {
    [[x] + pieces[0]] + pieces[1..]
  }

  /** Extending the last piece commutes with extending the first. */
  lemma PrependToFirstAppendLast(x: char, pieces: seq<string>, c: char)
    requires |pieces| >= 1
    ensures var extended := pieces[..|pieces| - 1] + [pieces[|pieces| - 1] + [c]];
            var p := PrependToFirst(x, pieces);
            PrependToFirst(x, extended) == p[..|p| - 1] + [p[|p| - 1] + [c]]
  {
    var extended := pieces[..|pieces| - 1] + [pieces[|pieces| - 1] + [c]];
    var p := PrependToFirst(x, pieces);
    if |pieces| == 1 {
      assert extended == [pieces[0] + [c]];
      assert [x] + (pieces[0] + [c]) == ([x] + pieces[0]) + [c];
    } else {
      assert extended[0] == pieces[0];
      assert extended[1..] == pieces[1..|pieces| - 1] + [pieces[|pieces| - 1] + [c]];
      assert p[..|p| - 1] == [[x] + pieces[0]] + pieces[1..|pieces| - 1];
    }
  }

  /** A path made of a directory ending in '/' and a name without '/' has that
      name as its last segment. */
  lemma LastSegmentOfJoinedPath(dir: string, name: string)
    requires |dir| > 0 && dir[|dir| - 1] == '/'
    requires '/' !in name
    ensures LastSegment(dir + name) == name
  {
    var p := dir + name;
    assert p[|p| - |name|..] == name;
  }
}
