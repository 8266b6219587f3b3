/** The identifiers of generated Python (`_var`, `_identifier` in
    python/sdpstudio_codegen/python_backend.py). Characters outside ASCII that are no blanks count as word
    characters. */
module PythonNames {
  import opened Sorting
  import opened Documents

  predicate IsDigit(c: char) { '0' <= c <= '9' }

  predicate IsAlnum(c: char) { IsDigit(c) || 'a' <= c <= 'z' || 'A' <= c <= 'Z' }

  predicate IsWord(c: char) { IsAlnum(c) || c == '_' || (c as int >= 128 && !IsSpace(c)) }

  /** `str.isspace`, which is also what `\s` matches: the ASCII blanks and separators, and those of Unicode. */
  predicate IsSpace(c: char) {
    var n := c as int;
    || 9 <= n <= 13 || 28 <= n <= 32 || n == 0x85 || n == 0xA0 || n == 0x1680 || 0x2000 <= n <= 0x200A
    || n == 0x2028 || n == 0x2029 || n == 0x202F || n == 0x205F || n == 0x3000
  }

  function Alnum(): char -> bool { (c: char) => IsAlnum(c) }

  function LastEight(s: string): string { if |s| <= 8 then s else s[|s| - 8..] }

  /** The part of a variable name taken from a node id: its last eight letters and digits. */
  function Suffix(id: string): string { LowerAll(LastEight(Filter(Alnum(), id))) }

  function StripLeft(s: string): string {
    if s != "" && IsSpace(s[0]) then StripLeft(s[1..]) else s
  }

  function StripRight(s: string): string {
    if s != "" && IsSpace(s[|s| - 1]) then StripRight(s[..|s| - 1]) else s
  }

  /** Each run of non-word characters becomes one underscore. */
  function Collapse(s: string, inRun: bool): string {
    if s == "" then ""
    else if IsWord(s[0]) then [s[0]] + Collapse(s[1..], false)
    else (if inRun then "" else "_") + Collapse(s[1..], true)
  }

  /** `keyword.iskeyword`, the keywords grouped by length. */
  predicate IsKeyword(s: string) {
    if |s| == 2 then s in {"as", "if", "in", "is", "or"}
    else if |s| == 3 then s in {"and", "def", "del", "for", "not", "try"}
    else if |s| == 4 then s in {"None", "True", "elif", "else", "from", "pass", "with"}
    else if |s| == 5 then s in {"False", "async", "await", "break", "class", "raise", "while", "yield"}
    else if |s| == 6 then s in {"assert", "except", "global", "import", "lambda", "return"}
    else if |s| == 7 then s == "finally"
    else |s| == 8 && s in {"continue", "nonlocal"}
  }

  function Identifier(value: string): string {
    var cleaned := Collapse(StripRight(StripLeft(value)), false);
    var name := if cleaned == "" then "dataset" else cleaned;
    if IsDigit(name[0]) || IsKeyword(name) then "svp_" + name else name
  }

  /** `_var(node_id, port)`. */
  function Var(id: string, port: Option<Port>): string {
    "n_" + Suffix(id) + PortSuffix(port)
  }

  function PortSuffix(port: Option<Port>): string {
    match port
    case None => ""
    case Some(p) => if p.Text() == "" || p.Text() == "out" then "" else "_" + LowerAll(Identifier(p.Text()))
  }

  lemma SuffixIsAlnum(id: string)
    ensures '_' !in Suffix(id)
  {
    FilterMembers(Alnum(), id);
    var s := LastEight(Filter(Alnum(), id));
    forall i | 0 <= i < |s| ensures Lower(s[i]) != '_' {
      assert s[i] in Filter(Alnum(), id);
      assert Alnum()(s[i]);
    }
  }

  /** A variable takes the last eight letters and digits of the id, in lower case: nothing before them counts. */
  lemma SuffixIsLastEight(before: string, id: string)
    ensures |Filter(Alnum(), id)| >= 8 ==> Suffix(before + id) == Suffix(id) && |Suffix(id)| == 8
    ensures |Filter(Alnum(), id)| <= 8 ==> Suffix(id) == LowerAll(Filter(Alnum(), id))
  {
    FilterAppend(Alnum(), before, id);
    var kept := Filter(Alnum(), id);
    if |kept| >= 8 { assert LastEight(Filter(Alnum(), before) + kept) == LastEight(kept); }
  }

  lemma LowerTwice(s: string)
    ensures LowerAll(LowerAll(s)) == LowerAll(s)
  {
    forall i | 0 <= i < |s| ensures Lower(Lower(s[i])) == Lower(s[i]) {}
  }

  lemma LowerBoth(a: string, b: string)
    ensures LowerAll(a + b) == LowerAll(a) + LowerAll(b)
  {
  }

  /** Variables are in lower case, whatever the id and the port. */
  lemma VarIsLowerCase(id: string, port: Option<Port>)
    ensures LowerAll(Var(id, port)) == Var(id, port)
  {
    var x, y := Suffix(id), PortSuffix(port);
    LowerTwice(LastEight(Filter(Alnum(), id)));
    assert LowerAll("n_") == "n_" && LowerAll("_") == "_" && LowerAll("") == "";
    LowerBoth("n_", x);
    LowerBoth("n_" + x, y);
    if port.Some? {
      var name := LowerAll(Identifier(port.value.Text()));
      LowerTwice(Identifier(port.value.Text()));
      LowerBoth("_", name);
    }
  }

  lemma {:induction false} PlainWordStays(s: string, inRun: bool)
    requires forall c :: c in s ==> IsWord(c)
    ensures Collapse(s, inRun) == s
  {
    if s != "" {
      assert s == [s[0]] + s[1..];
      PlainWordStays(s[1..], false);
    }
  }

  /** A Python identifier: word characters, no leading digit, no keyword. */
  predicate IsIdentifier(s: string) {
    s != "" && !IsDigit(s[0]) && !IsKeyword(s) && forall i :: 0 <= i < |s| ==> IsWord(s[i])
  }

  lemma {:induction false} CollapseIsWord(s: string, inRun: bool)
    ensures forall i :: 0 <= i < |Collapse(s, inRun)| ==> IsWord(Collapse(s, inRun)[i])
  {
    if s != "" { CollapseIsWord(s[1..], !IsWord(s[0])); }
  }

  lemma PrefixedIsNoKeyword(s: string)
    ensures !IsKeyword("svp_" + s)
  {
    var t := "svp_" + s;
    assert t[0] == 's' && t[1] == 'v';
  }

  /** `_identifier` returns a Python identifier, and returns identifiers unchanged. */
  lemma IdentifierIsValid(value: string)
    ensures IsIdentifier(Identifier(value))
    ensures IsIdentifier(value) ==> Identifier(value) == value
  {
    var cleaned := Collapse(StripRight(StripLeft(value)), false);
    CollapseIsWord(StripRight(StripLeft(value)), false);
    PrefixedIsNoKeyword(if cleaned == "" then "dataset" else cleaned);
    if IsIdentifier(value) {
      assert value[0] in value && value[|value| - 1] in value;
      assert StripLeft(value) == value && StripRight(value) == value;
      PlainWordStays(value, false);
    }
  }

  lemma {:induction false} CollapseAppend(a: string, b: string, inRun: bool)
    ensures Collapse(a + b, inRun) == Collapse(a, inRun) + Collapse(b, if a == "" then inRun else !IsWord(a[|a| - 1]))
  {
    if a == "" {
      assert a + b == b;
    } else {
      assert (a + b)[1..] == a[1..] + b;
      CollapseAppend(a[1..], b, !IsWord(a[0]));
    }
  }

  lemma {:induction false} CollapseRun(run: string, inRun: bool)
    requires forall i :: 0 <= i < |run| ==> !IsWord(run[i])
    ensures Collapse(run, inRun) == if run == "" || inRun then "" else "_"
  {
    if run != "" { CollapseRun(run[1..], true); }
  }

  /** A run of other characters between words becomes one underscore, however long it is. */
  lemma RunBecomesUnderscore(a: string, run: string, b: string)
    requires run != "" && forall i :: 0 <= i < |run| ==> !IsWord(run[i])
    requires (a == "" || IsWord(a[|a| - 1])) && (b == "" || IsWord(b[0]))
    ensures Collapse(a + run + b, false) == Collapse(a, false) + "_" + Collapse(b, false)
  {
    CollapseAppend(a + run, b, false);
    CollapseAppend(a, run, false);
    CollapseRun(run, false);
    assert (a + run)[|a + run| - 1] == run[|run| - 1];
  }

  lemma PlainIdentifier(s: string)
    requires s != "" && (forall c :: c in s ==> 'a' <= c <= 'z') && !IsKeyword(s)
    ensures Identifier(s) == s && LowerAll(s) == s
  {
    forall i | 0 <= i < |s| ensures IsWord(s[i]) && !IsDigit(s[i]) && Lower(s[i]) == s[i] { assert s[i] in s; }
    IdentifierIsValid(s);
  }

  lemma PlainSuffix(p: Port)
    requires p.Text() != "" && p.Text() != "out" && !IsKeyword(p.Text())
    requires forall c :: c in p.Text() ==> 'a' <= c <= 'z'
    ensures PortSuffix(Some(p)) == "_" + p.Text()
  {
    PlainIdentifier(p.Text());
  }

  lemma SplitSuffixes()
    ensures PortSuffix(Some(Accepted)) == "_" + "accepted"
    ensures PortSuffix(Some(Quarantine)) == "_" + "quarantine"
  {
    var a, q := Accepted.Text(), Quarantine.Text();
    assert |a| == 8 && |q| == 10;
    PlainSuffix(Accepted);
    PlainSuffix(Quarantine);
  }

  lemma NoShorterStem(a: string, x: string, b: string, y: string)
    requires '_' !in b && a + x == b + y && (x == "" || x[0] == '_')
    ensures |a| >= |b|
  {
    forall i | 0 <= i < |b| ensures (b + y)[i] != '_' { assert b[i] in b; }
    assert x != "" ==> (a + x)[|a|] == x[0];
  }

  lemma SuffixedParts(a: string, x: string, b: string, y: string)
    requires '_' !in a && '_' !in b && a + x == b + y
    requires (x == "" || x[0] == '_') && (y == "" || y[0] == '_')
    ensures a == b && x == y
  {
    NoShorterStem(a, x, b, y);
    NoShorterStem(b, y, a, x);
    assert a == (a + x)[..|a|] && b == (b + y)[..|b|];
    assert x == (a + x)[|a|..] && y == (b + y)[|b|..];
  }

  lemma PortSuffixShape(p: Option<Port>)
    ensures PortSuffix(p) == "" || PortSuffix(p)[0] == '_'
  {
  }

  lemma PrefixedStems(a: string, x: string, b: string, y: string)
    requires "n_" + a + x == "n_" + b + y && '_' !in a && '_' !in b
    requires (x == "" || x[0] == '_') && (y == "" || y[0] == '_')
    ensures a == b && x == y
  {
    assert ("n_" + a + x)[2..] == a + x;
    assert ("n_" + b + y)[2..] == b + y;
    SuffixedParts(a, x, b, y);
  }

  /** Variables are equal only for equal id suffixes and equal ports. */
  lemma VarsApart(a: string, p: Option<Port>, b: string, q: Option<Port>)
    requires Var(a, p) == Var(b, q)
    ensures Suffix(a) == Suffix(b) && PortSuffix(p) == PortSuffix(q)
  {
    PortSuffixShape(p);
    PortSuffixShape(q);
    SuffixIsAlnum(a);
    SuffixIsAlnum(b);
    PrefixedStems(Suffix(a), PortSuffix(p), Suffix(b), PortSuffix(q));
  }

  /** How variables are named after node outputs. */
  type Naming = (string, Option<Port>) -> string

  predicate Nameable(p: Option<Port>) { p.None? || p.value == Accepted || p.value == Quarantine }

  /** Different outputs of the nodes in ids have different variables. */
  ghost predicate NamesApart(name: Naming, ids: set<string>) {
    forall a, b, p, q :: a in ids && b in ids && Nameable(p) && Nameable(q) && name(a, p) == name(b, q) ==>
      a == b && p == q
  }

  /** `_var` tells outputs apart when the last eight letters and digits of the ids differ. */
  ghost predicate SuffixesDistinct(ids: set<string>) {
    forall a, b :: a in ids && b in ids && Suffix(a) == Suffix(b) ==> a == b
  }

  lemma VarNamesApart(ids: set<string>)
    requires SuffixesDistinct(ids)
    ensures NamesApart(Var, ids)
  {
    SplitSuffixes();
    var x, y := "_" + "accepted", "_" + "quarantine";
    assert x[1] != y[1];
    forall a, b, p, q | a in ids && b in ids && Nameable(p) && Nameable(q) && Var(a, p) == Var(b, q)
      ensures a == b && p == q
    {
      VarsApart(a, p, b, q);
      assert PortSuffix(None) == "";
    }
  }
}
