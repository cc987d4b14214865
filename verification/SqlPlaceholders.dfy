/**
  What is written for one placeholder, and what is sent for it: src/sql.rs:227-327 and
  src/handlers.rs:409-477, with every text spelled out.
*/
module SqlPlaceholders {
  import opened Wrappers
  import opened SqlLexer
  import opened SqlRewrite
  import opened SqlBinding
  import Decimal

  const LARGEST: nat := 0xFFFF_FFFF_FFFF_FFFF

  /** The digits of a number are read from the left. */
  lemma DigitsAreRead(s: string, c: char)
    requires Decimal.AllDigits(s) && Decimal.IsDigit(c)
    ensures Decimal.AllDigits(s + [c])
    ensures Decimal.FromDigits(s + [c]) == 10 * Decimal.FromDigits(s) + (c as int - '0' as int)
  {
    assert (s + [c])[..|s|] == s;
  }

  lemma Split(d: string, rest: string)
    requires d != "" && Decimal.AllDigits(d) && (rest == "" || !('0' <= rest[0] <= '9'))
    ensures var s := "$" + d + rest;
      IsPlaceholder(s) && PlaceholderLen(s) == 1 + |d| && s[..1 + |d|] == "$" + d && s[1 + |d|..] == rest
    ensures ("$" + d)[1..] == d
  {
    var s := "$" + d + rest;
    assert forall i :: 0 < i < 1 + |d| ==> s[i] == d[i - 1];
    RunEnds(s, 1 + |d|);
  }

  /** A `$` and digits give way to the replacement of the number they denote, leading
      zeros or not, if it is not zero and fits in 64 bits; else they stay. */
  lemma PlaceholderExactly(d: string, rest: string, f: nat -> string)
    requires d != "" && Decimal.AllDigits(d) && (rest == "" || !('0' <= rest[0] <= '9'))
    ensures Rewrite("$" + d + rest, f) ==
      (if 1 <= Decimal.FromDigits(d) <= 0xFFFF_FFFF_FFFF_FFFF then f(Decimal.FromDigits(d)) else "$" + d)
      + Rewrite(rest, f)
  {
    Split(d, rest);
  }

  /** Placeholder `n` becomes `:pn`, in a cast to the `n`-th type if there is one. */
  lemma CastAtPlaceholder(n: nat, types: seq<Option<string>>, rest: string)
    requires 1 <= n <= LARGEST && (rest == "" || !('0' <= rest[0] <= '9'))
    ensures var d := Decimal.ToDecimal(n);
      Rewrite("$" + d + rest, CastReplacement(types)) ==
        (if n <= |types| && types[n - 1].Some? then "CAST(:p" + d + " AS " + types[n - 1].value + ")" else ":p" + d)
        + Rewrite(rest, CastReplacement(types))
  {
    hide Rewrite, CastReplacement;
    Decimal.DecimalRoundTrip(n);
    CastText(n, types);
    PlaceholderExactly(Decimal.ToDecimal(n), rest, CastReplacement(types));
  }

  lemma CastText(n: nat, types: seq<Option<string>>)
    requires n >= 1
    ensures var d := Decimal.ToDecimal(n);
      CastReplacement(types)(n) ==
        if n <= |types| && types[n - 1].Some? then "CAST(:p" + d + " AS " + types[n - 1].value + ")" else ":p" + d
  {
    var d := Decimal.ToDecimal(n);
    assert "CAST(:" + ("p" + d) == "CAST(:p" + d;
    assert ":" + ("p" + d) == ":p" + d;
  }

  /** The same for a text that is a placeholder and nothing else. */
  lemma CastOfPlaceholder(n: nat, types: seq<Option<string>>)
    requires 1 <= n <= LARGEST
    ensures var d := Decimal.ToDecimal(n);
      Rewrite("$" + d, CastReplacement(types)) ==
        if n <= |types| && types[n - 1].Some? then "CAST(:p" + d + " AS " + types[n - 1].value + ")" else ":p" + d
  {
    var d := Decimal.ToDecimal(n);
    CastAtPlaceholder(n, types, "");
    assert "$" + d + "" == "$" + d;
    assert Rewrite("", CastReplacement(types)) == "";
  }

  /** For the probe it becomes a null, of the `n`-th type if there is one. */
  lemma NullAtPlaceholder(n: nat, types: seq<Option<string>>, rest: string)
    requires 1 <= n <= LARGEST && (rest == "" || !('0' <= rest[0] <= '9'))
    ensures var d := Decimal.ToDecimal(n);
      Rewrite("$" + d + rest, NullReplacement(types)) ==
        (if n <= |types| && types[n - 1].Some? then "NULL::" + types[n - 1].value else "NULL")
        + Rewrite(rest, NullReplacement(types))
  {
    hide Rewrite;
    Decimal.DecimalRoundTrip(n);
    PlaceholderExactly(Decimal.ToDecimal(n), rest, NullReplacement(types));
  }

  lemma NullOfPlaceholder(n: nat, types: seq<Option<string>>)
    requires 1 <= n <= LARGEST
    ensures Rewrite("$" + Decimal.ToDecimal(n), NullReplacement(types)) ==
      if n <= |types| && types[n - 1].Some? then "NULL::" + types[n - 1].value else "NULL"
  {
    var d := Decimal.ToDecimal(n);
    NullAtPlaceholder(n, types, "");
    assert "$" + d + "" == "$" + d;
    assert Rewrite("", NullReplacement(types)) == "";
  }

  // ---------------------------------------------------------- the types of a portal

  /** The client gave no type for value `j`, or said that it does not know. */
  predicate Undeclared<T(==)>(declared: seq<Option<T>>, j: nat, unknown: T) {
    j < |declared| ==> declared[j].None? || declared[j].value == unknown
  }

  /** The type of parameter `i + 1`: the one declared if it can be cast, or what the
      probe found, which is asked exactly if some bound value has no declared type. */
  lemma CastTypesExactly<T, R, V>(declared: seq<Option<T>>, bound: nat, probe: Option<seq<Option<string>>>,
      b: Binding<T, R, V>, i: nat)
    requires i < bound
    ensures var types := CastTypes(declared, bound, probe, b);
      && |types| == bound
      && types[i] ==
           if i < |declared| && declared[i].Some? && b.castName(declared[i].value).Some?
           then b.castName(declared[i].value)
           else if probe.Some? && i < |probe.value|
             && exists j :: 0 <= j < bound && Undeclared(declared, j, b.unknown)
           then probe.value[i] else None
  {
    forall j: nat | j < bound
      ensures Undeclared(declared, j, b.unknown) <==> Declared(declared, j, b.unknown).None?
    {
    }
    if j :| 0 <= j < bound && Undeclared(declared, j, b.unknown) {
      assert Declared(declared, j, b.unknown).None?;
    }
    if NeedsProbe(declared, bound, b.unknown) {
      var j :| 0 <= j < bound && Declared(declared, j, b.unknown).None?;
      assert Undeclared(declared, j, b.unknown);
    }
  }

  /** The type value `i` is converted by: the declared one, else the one its cast names. */
  lemma DecodedAsExactly<T, R, V>(declared: seq<Option<T>>, types: seq<Option<string>>, i: nat, b: Binding<T, R, V>)
    requires i < |types|
    ensures DecodedAs(declared, types, i, b) ==
      if !Undeclared(declared, i, b.unknown) then declared[i].value
      else if types[i].Some? then b.typeOf(types[i].value) else b.unknown
  {
  }

  // ------------------------------------------------------------------- how many

  /** A placeholder asks for as many parameters as its number. */
  lemma CountOfPlaceholder(n: nat)
    requires 1 <= n <= LARGEST
    ensures var s := "$" + Decimal.ToDecimal(n); Indexes(Lex(s)) == [n] && ParamCount(s) == n
  {
    var d := Decimal.ToDecimal(n);
    var s := "$" + d;
    Decimal.DecimalRoundTrip(n);
    Split(d, "");
    assert s + "" == s && s[1..] == d;
    PlaceholderAlone(s);
    OnePiece(Piece(Code, s));
  }
}
