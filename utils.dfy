/** The upload filter and the recipient-column pipeline: which file names
    are accepted, and how a column of spreadsheet cells becomes the list of
    recipient addresses (drop empty cells, drop repeats keeping the first,
    keep values containing `@`, strip surrounding whitespace). */
module Utils {
  import opened Common
  import opened Text

  // ---------------------------------------------------------------------
  // allowed_file
  // ---------------------------------------------------------------------

  /** The index of the last `.` in `s`, if any. */
  function LastDot(s: string): (r: Option<nat>)
    ensures r.Some? ==> r.value < |s| && s[r.value] == '.'
                        && forall k :: r.value < k < |s| ==> s[k] != '.'
    ensures r.None? <==> '.' !in s
  {
    if s == [] then None
    else if s[|s| - 1] == '.' then Some(|s| - 1)
    else
      assert forall k :: 0 <= k < |s| - 1 ==> s[..|s| - 1][k] == s[k];
      LastDot(s[..|s| - 1])
  }

  /** `ALLOWED_EXTENSIONS`. */
  const AllowedExtensions: set<string> := {"csv", "xlsx"}

  /** `allowed_file`: the name has a dot, and the text after its last dot,
      lower-cased, is an allowed extension. */
  predicate AllowedFile(filename: string)
  {
    match LastDot(filename)
    case None => false
    case Some(i) => Lower(filename[i + 1..]) in AllowedExtensions
  }

  /** A dot with no dot after it is the one `LastDot` finds. */
  lemma LastDotUnique(s: string, i: nat)
    requires i < |s| && s[i] == '.' && '.' !in s[i + 1..]
    ensures LastDot(s) == Some(i)
  {
    forall k | i < k < |s| ensures s[k] != '.' {
      assert s[i + 1..][k - i - 1] == s[k];
    }
    assert '.' in s;
  }

  /** The dot at `i` is the last one and the extension after it is allowed. */
  predicate ExtensionAllowedAt(filename: string, i: nat)
  {
    i < |filename| && filename[i] == '.' && '.' !in filename[i + 1..]
    && Lower(filename[i + 1..]) in AllowedExtensions
  }

  /** No character after the last dot is a dot. */
  lemma AfterLastDot(s: string)
    requires LastDot(s).Some?
    ensures '.' !in s[LastDot(s).value + 1..]
  {
    var j := LastDot(s).value;
    var t := s[j + 1..];
    forall k | 0 <= k < |t| ensures t[k] != '.' {
      assert t[k] == s[j + 1 + k];
    }
  }

  /** A file is accepted exactly when it has a dot after which no dot
      follows and what follows, lower-cased, is an allowed extension. */
  lemma AllowedFileMeaning(filename: string)
    ensures AllowedFile(filename) <==> exists i :: ExtensionAllowedAt(filename, i)
  {
    if AllowedFile(filename) {
      AfterLastDot(filename);
      assert ExtensionAllowedAt(filename, LastDot(filename).value);
    }
    forall i | ExtensionAllowedAt(filename, i) ensures AllowedFile(filename) {
      LastDotUnique(filename, i);
    }
  }

  /** An upper-case extension is accepted. */
  lemma AllowedUpperCase()
    ensures AllowedFile("A.CSV")
  {
    var name := "A.CSV";
    assert name[1] == '.' && name[2..] == "CSV";
    assert '.' !in "CSV";
    LastDotUnique(name, 1);
    assert Lower("CSV") == "csv";
  }

  /** Only the text after the last dot counts. */
  lemma AllowedLastExtensionOnly()
    ensures AllowedFile("list.v2.Xlsx")
    ensures !AllowedFile("data.csv.txt")
  {
    assert "list.v2.Xlsx"[7] == '.';
    assert LastDot("list.v2.Xlsx") == Some(7);
    assert "list.v2.Xlsx"[8..] == "Xlsx";
    assert Lower("Xlsx") == "xlsx";
    assert "data.csv.txt"[8] == '.';
    assert LastDot("data.csv.txt") == Some(8);
    assert "data.csv.txt"[9..] == "txt";
    assert Lower("txt") == "txt";
  }

  /** A bare extension with no dot is refused. */
  lemma RefusedWithoutDot()
    ensures !AllowedFile("csv")
  {
    assert '.' !in "csv";
  }

  // ---------------------------------------------------------------------
  // parse_recipient_file
  // ---------------------------------------------------------------------

  /** A column of cells as pandas reads it: `None` for an empty cell (NaN). */
  type Column = seq<Option<string>>

  /** A read sheet: column name to its cells. */
  type Table = map<string, Column>

  /** The positions of `s` at which `keep` holds, in increasing order. */
  function Positions<T>(s: seq<T>, keep: T -> bool): (p: seq<nat>)
    ensures |p| <= |s|
    ensures forall k :: 0 <= k < |p| ==> p[k] < |s| && keep(s[p[k]])
    ensures forall i, j :: 0 <= i < j < |p| ==> p[i] < p[j]
    ensures forall j :: 0 <= j < |s| && keep(s[j]) ==> j in p
    decreases |s|
  {
    if s == [] then []
    else
      var init := s[..|s| - 1];
      assert forall j :: 0 <= j < |init| ==> init[j] == s[j];
      Positions(init, keep) + (if keep(s[|s| - 1]) then [|s| - 1] else [])
  }

  lemma PositionsSnoc<T>(s: seq<T>, x: T, keep: T -> bool)
    ensures Positions(s + [x], keep) == Positions(s, keep) + (if keep(x) then [|s|] else [])
  {
    assert (s + [x])[..|s|] == s;
  }

  predicate Present(c: Option<string>)
  {
    c.Some?
  }

  /** The value contains `@`. */
  predicate HasAt(v: string)
  {
    '@' in v
  }

  /** `dropna()`: the values of the non-empty cells, in column order, repeats
      kept. */
  function DropNull(col: Column): (vs: seq<string>)
    ensures |vs| <= |col|
    ensures forall v :: v in vs <==> Some(v) in col
    decreases |col|
  {
    if col == [] then []
    else
      var init := col[..|col| - 1];
      var last := col[|col| - 1];
      assert col == init + [last];
      var rest := DropNull(init);
      if last.Some? then rest + [last.value] else rest
  }

  /** The `k`-th value `dropna()` keeps is the cell at the `k`-th non-empty
      position. */
  lemma {:induction false} DropNullPositions(col: Column)
    ensures var p := Positions(col, Present); var vs := DropNull(col);
      |vs| == |p| && forall k :: 0 <= k < |p| ==> col[p[k]] == Some(vs[k])
    decreases |col|
  {
    if col != [] {
      var init := col[..|col| - 1];
      var last := col[|col| - 1];
      assert col == init + [last];
      DropNullPositions(init);
      DropNullSnoc(init, last);
      PositionsSnoc(init, last, Present);
      var p0, v0 := Positions(init, Present), DropNull(init);
      var p, vs := Positions(col, Present), DropNull(col);
      forall k | 0 <= k < |p| ensures col[p[k]] == Some(vs[k]) {
        if k < |p0| {
          assert p[k] == p0[k] && vs[k] == v0[k];
          assert init[p0[k]] == col[p0[k]];
        }
      }
    }
  }

  /** The position of the first occurrence of `v` in `vs`. */
  function FirstIndex<T(==)>(vs: seq<T>, v: T): (i: nat)
    requires v in vs
    ensures i < |vs| && vs[i] == v && v !in vs[..i]
  {
    if vs[0] == v then 0 else FirstIndex(vs[1..], v) + 1
  }

  lemma {:induction false} FirstIndexInPrefix<T>(vs: seq<T>, n: nat, v: T)
    requires n <= |vs| && v in vs[..n]
    ensures FirstIndex(vs, v) == FirstIndex(vs[..n], v)
  {
    var i := FirstIndex(vs[..n], v);
    var j := FirstIndex(vs, v);
    assert vs[..n][..i] == vs[..i];
  }

  /** `unique()`: each value once, at the place of its first occurrence. The
      result holds the same values, none twice, ordered by where each value
      first occurs. */
  function Unique(vs: seq<string>): (u: seq<string>)
    ensures |u| <= |vs|
    ensures Distinct(u)
    ensures forall v :: v in u <==> v in vs
    ensures forall i, j :: 0 <= i < j < |u| ==> FirstIndex(vs, u[i]) < FirstIndex(vs, u[j])
    decreases |vs|
  {
    if vs == [] then []
    else
      var init := vs[..|vs| - 1];
      var last := vs[|vs| - 1];
      var u := Unique(init);
      assert vs == init + [last];
      forall v | v in u ensures FirstIndex(vs, v) == FirstIndex(init, v) {
        FirstIndexInPrefix(vs, |vs| - 1, v);
      }
      if last in init then u
      else
        assert FirstIndex(vs, last) == |vs| - 1;
        u + [last]
  }

  /** The filter of the address comprehension of `parse_recipient_file`:
      the values containing `@`, in input order. */
  function WithAt(vs: seq<string>): (r: seq<string>)
    ensures |r| <= |vs|
    ensures forall v :: v in r <==> v in vs && '@' in v
    decreases |vs|
  {
    if vs == [] then []
    else
      var init := vs[..|vs| - 1];
      var last := vs[|vs| - 1];
      assert vs == init + [last];
      var rest := WithAt(init);
      if '@' in last then rest + [last] else rest
  }

  /** The `k`-th value kept is the one at the `k`-th position whose value
      contains `@`. */
  lemma {:induction false} WithAtPositions(vs: seq<string>)
    ensures var p := Positions(vs, HasAt); var r := WithAt(vs);
      |r| == |p| && forall k :: 0 <= k < |p| ==> r[k] == vs[p[k]]
    decreases |vs|
  {
    if vs != [] {
      var init := vs[..|vs| - 1];
      var last := vs[|vs| - 1];
      assert vs == init + [last];
      WithAtPositions(init);
      WithAtSnoc(init, last);
      PositionsSnoc(init, last, HasAt);
      var p0, r0 := Positions(init, HasAt), WithAt(init);
      var p, r := Positions(vs, HasAt), WithAt(vs);
      forall k | 0 <= k < |p| ensures r[k] == vs[p[k]] {
        if k < |p0| {
          assert p[k] == p0[k] && r[k] == r0[k];
          assert init[p0[k]] == vs[p0[k]];
        }
      }
    }
  }

  /** The map of that comprehension: `e.strip()` of every value. */
  function StripAll(w: seq<string>): (r: seq<string>)
    ensures |r| == |w| && forall k :: 0 <= k < |w| ==> r[k] == Strip(w[k])
  {
    seq(|w|, k requires 0 <= k < |w| => Strip(w[k]))
  }

  /** The address comprehension of `parse_recipient_file`: one stripped
      value per value containing `@`, in input order. Every address kept contains `@`
      and has no surrounding whitespace. */
  function KeepAddresses(vs: seq<string>): (r: seq<string>)
    ensures |r| <= |vs|
    ensures forall e :: e in r ==> '@' in e && IsStripped(e)
  {
    var w := WithAt(vs);
    var r := StripAll(w);
    forall k | 0 <= k < |w| ensures '@' in r[k] {
      assert w[k] in w;
      StripKeeps(w[k], '@');
    }
    r
  }

  /** The `k`-th address kept is the stripped value at the `k`-th position
      whose value contains `@`. */
  lemma KeepAddressesPositions(vs: seq<string>)
    ensures var p := Positions(vs, HasAt); var r := KeepAddresses(vs);
      |r| == |p| && forall k :: 0 <= k < |p| ==> r[k] == Strip(vs[p[k]])
  {
    WithAtPositions(vs);
  }

  /** Stripping every value hits exactly the stripped members. */
  lemma StripAllMembers(w: seq<string>)
    ensures forall x :: x in StripAll(w) <==> exists v :: v in w && Strip(v) == x
  {
    var r := StripAll(w);
    forall x | x in r ensures exists v :: v in w && Strip(v) == x {
      var k :| 0 <= k < |r| && r[k] == x;
      assert w[k] in w;
    }
    forall v | v in w ensures Strip(v) in r {
      var k :| 0 <= k < |w| && w[k] == v;
      assert r[k] == Strip(v);
    }
  }

  /** The addresses kept are exactly the stripped values containing `@`. */
  lemma KeepAddressesMembers(vs: seq<string>)
    ensures forall x :: x in KeepAddresses(vs) <==> exists v :: v in vs && '@' in v && Strip(v) == x
  {
    StripAllMembers(WithAt(vs));
  }

  /** The reference for what a column yields: the distinct values of its
      non-empty cells that contain `@`, in the order in which each first
      occurs in the column (`FirstSeenOrder`). */
  function FirstSeen(col: Column): (w: seq<string>)
    ensures Distinct(w)
    ensures forall v :: v in w <==> Some(v) in col && '@' in v
    decreases |col|
  {
    if col == [] then []
    else
      var init := col[..|col| - 1];
      var last := col[|col| - 1];
      var w := FirstSeen(init);
      assert col == init + [last];
      if last.Some? && '@' in last.value && last.value !in w then w + [last.value] else w
  }

  /** `FirstSeen` lists the values in the order of their first cells. */
  lemma {:induction false} FirstSeenOrder(col: Column)
    ensures var w := FirstSeen(col);
      forall i, j :: 0 <= i < j < |w| ==> FirstIndex(col, Some(w[i])) < FirstIndex(col, Some(w[j]))
    decreases |col|
  {
    if col != [] {
      var init := col[..|col| - 1];
      var last := col[|col| - 1];
      assert col == init + [last];
      FirstSeenOrder(init);
      FirstSeenSnoc(init, last);
      var w := FirstSeen(init);
      var w' := FirstSeen(col);
      assert w' == w || w' == w + [last.value];
      forall i, j | 0 <= i < j < |w'|
        ensures FirstIndex(col, Some(w'[i])) < FirstIndex(col, Some(w'[j]))
      {
        assert w'[i] == w[i] && w[i] in w;
        FirstIndexInPrefix(col, |init|, Some(w[i]));
        if j < |w| {
          assert w'[j] == w[j] && w[j] in w;
          FirstIndexInPrefix(col, |init|, Some(w[j]));
        } else {
          assert w'[j] == last.value && last.value !in w;
          assert Some(last.value) !in init;
          assert FirstIndex(col, last) == |init|;
        }
      }
    }
  }

  lemma DropNullSnoc(col: Column, c: Option<string>)
    ensures DropNull(col + [c]) == DropNull(col) + (if c.Some? then [c.value] else [])
  {
    assert (col + [c])[..|col|] == col;
  }

  lemma UniqueSnoc(vs: seq<string>, v: string)
    ensures Unique(vs + [v]) == if v in vs then Unique(vs) else Unique(vs) + [v]
  {
    assert (vs + [v])[..|vs|] == vs;
  }

  lemma WithAtSnoc(vs: seq<string>, v: string)
    ensures WithAt(vs + [v]) == WithAt(vs) + (if '@' in v then [v] else [])
  {
    assert (vs + [v])[..|vs|] == vs;
  }

  lemma FirstSeenSnoc(col: Column, c: Option<string>)
    ensures FirstSeen(col + [c])
         == if c.Some? && '@' in c.value && c.value !in FirstSeen(col) then FirstSeen(col) + [c.value]
            else FirstSeen(col)
  {
    assert (col + [c])[..|col|] == col;
  }

  /** Dropping empty cells, then repeats, then values without `@` leaves
      exactly the values `FirstSeen` lists, in its order. */
  lemma {:induction false} PipelineIsFirstSeen(col: Column)
    ensures WithAt(Unique(DropNull(col))) == FirstSeen(col)
    decreases |col|
  {
    if col != [] {
      var init := col[..|col| - 1];
      var c := col[|col| - 1];
      assert col == init + [c];
      PipelineIsFirstSeen(init);
      DropNullSnoc(init, c);
      FirstSeenSnoc(init, c);
      if c.Some? {
        var vs := DropNull(init);
        var v := c.value;
        UniqueSnoc(vs, v);
        WithAtSnoc(Unique(vs), v);
      }
    }
  }

  /** The emails extracted from one column: the distinct values of its
      non-empty cells that contain `@`, in order of first occurrence, each
      stripped. Repeats are dropped before stripping, so two cells that
      differ only in surrounding whitespace both give an address. Every
      address contains `@` and has no surrounding whitespace, and there are
      never more addresses than cells. */
  function ParseEmails(col: Column): (r: seq<string>)
    ensures r == StripAll(FirstSeen(col))
    ensures |r| <= |col|
    ensures forall e :: e in r ==> '@' in e && IsStripped(e)
    ensures forall x :: x in r <==>
      exists j :: 0 <= j < |col| && col[j].Some? && '@' in col[j].value && Strip(col[j].value) == x
  {
    var vs := DropNull(col);
    var u := Unique(vs);
    var r := KeepAddresses(u);
    PipelineIsFirstSeen(col);
    KeepAddressesMembers(u);
    forall x ensures x in r <==>
      exists j :: 0 <= j < |col| && col[j].Some? && '@' in col[j].value && Strip(col[j].value) == x
    {
      if x in r {
        var v :| v in u && '@' in v && Strip(v) == x;
        var j :| 0 <= j < |col| && col[j] == Some(v);
      }
      if exists j :: 0 <= j < |col| && col[j].Some? && '@' in col[j].value && Strip(col[j].value) == x {
        var j :| 0 <= j < |col| && col[j].Some? && '@' in col[j].value && Strip(col[j].value) == x;
        assert col[j] in col;
        assert col[j].value in u;
      }
    }
    r
  }

  /** A column yields one address per distinct raw value containing `@`. */
  lemma ParseEmailsCount(col: Column)
    ensures |ParseEmails(col)| == |set j | 0 <= j < |col| && col[j].Some? && '@' in col[j].value :: col[j].value|
  {
    var w := FirstSeen(col);
    DistinctCardinality(w);
    forall v ensures v in w <==> exists j :: 0 <= j < |col| && col[j].Some? && '@' in col[j].value && col[j].value == v {
      if v in w {
        var j :| 0 <= j < |col| && col[j] == Some(v);
      }
    }
    assert Elements(w) == set j | 0 <= j < |col| && col[j].Some? && '@' in col[j].value :: col[j].value;
  }

  /** A value with no surrounding whitespace survives `strip()` unchanged. */
  lemma StripOfStripped(a: string)
    requires IsStripped(a)
    ensures Strip(a) == a
  {
  }

  /** One blank on each side of a stripped value is removed by `strip()`. */
  lemma StripPadded(a: string)
    requires IsStripped(a)
    ensures Strip([' '] + a + [' ']) == a
  {
    assert [' '] + a + [' '] == [' '] + (a + [' ']);
    TrimLeftSkips(' ', a + [' ']);
    TrimRightSkips(a, ' ');
    if a != [] {
      assert (a + [' '])[0] == a[0];
      assert TrimLeft(a + [' ']) == a + [' '];
    } else {
      TrimLeftSkips(' ', []);
    }
  }

  lemma FirstSeenPair(a: string, b: string)
    requires '@' in a && '@' in b && a != b
    ensures FirstSeen([Some(a), Some(b)]) == [a, b]
  {
    FirstSeenSnoc([], Some(a));
    assert [] + [Some(a)] == [Some(a)];
    FirstSeenSnoc([Some(a)], Some(b));
    assert [Some(a)] + [Some(b)] == [Some(a), Some(b)];
  }

  lemma StripAllPair(a: string, b: string)
    ensures StripAll([a, b]) == [Strip(a), Strip(b)]
  {
    var r := StripAll([a, b]);
    assert r[0] == Strip(a) && r[1] == Strip(b);
  }

  /** Repeats are dropped before stripping: an address and its padded variant
      both survive and give the same address twice. */
  lemma WhitespaceVariantsBothSurvive(a: string)
    requires '@' in a && IsStripped(a)
    ensures ParseEmails([Some(a), Some([' '] + a + [' '])]) == [a, a]
  {
    var padded := [' '] + a + [' '];
    assert '@' in padded by {
      var k :| 0 <= k < |a| && a[k] == '@';
      assert padded[k + 1] == '@';
    }
    assert padded != a by {
      assert |padded| == |a| + 2;
    }
    FirstSeenPair(a, padded);
    StripAllPair(a, padded);
    StripOfStripped(a);
    StripPadded(a);
  }

  lemma FirstSeenOfRepeat(a: string, b: string)
    requires '@' in a && '@' !in b
    ensures FirstSeen([Some(a), None, Some(b), Some(a)]) == [a]
  {
    var c0: Column := [Some(a)];
    var c1: Column := c0 + [None];
    var c2: Column := c1 + [Some(b)];
    FirstSeenSnoc([], Some(a));
    assert [] + [Some(a)] == c0;
    FirstSeenSnoc(c0, None);
    FirstSeenSnoc(c1, Some(b));
    FirstSeenSnoc(c2, Some(a));
    assert c2 + [Some(a)] == [Some(a), None, Some(b), Some(a)];
  }

  /** An exact repeat gives the address once; empty cells and values without
      `@` are dropped. */
  lemma RepeatsAndBlanksDropped(a: string, b: string)
    requires '@' in a && '@' !in b
    ensures ParseEmails([Some(a), None, Some(b), Some(a)]) == [Strip(a)]
  {
    FirstSeenOfRepeat(a, b);
    assert StripAll([a]) == [Strip(a)];
  }

  /** What `parse_recipient_file` returns: `(emails, None)` or `(None, error)`. */
  datatype Parsed = Parsed(emails: Option<seq<string>>, error: Option<string>)

  /** The message returned when the sheet has no such column. */
  function MissingColumnMessage(column: string): string
  {
    "Column '" + column + "' not found in file."
  }

  /** `parse_recipient_file` after the sheet has been read. A read failure
      yields no list and the exception's text; a missing column yields no
      list and a message naming it; otherwise the column's emails and no
      error. */
  function ParseRecipientFile(sheet: Result<Table, string>, column: string): (p: Parsed)
    ensures sheet.Err? ==> p == Parsed(None, Some(sheet.error))
    ensures sheet.Ok? && column !in sheet.value ==> p == Parsed(None, Some(MissingColumnMessage(column)))
    ensures p.emails.Some? <==> sheet.Ok? && column in sheet.value
    ensures p.emails.Some? ==> p.error == None && p.emails.value == ParseEmails(sheet.value[column])
  {
    match sheet
    case Err(msg) => Parsed(None, Some(msg))
    case Ok(table) =>
      if column !in table then Parsed(None, Some(MissingColumnMessage(column)))
      else Parsed(Some(ParseEmails(table[column])), None)
  }
}
