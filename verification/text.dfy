/** String helpers of the inventory manager: whitespace trimming, C-locale
    lower-casing, the "cancel" test applied to every prompt answer, substring
    search, and the comma splitting and joining of the CSV rows. */
module Text {

  /** The characters that trimming removes from both ends of a string. */
  predicate IsSpace(c: char) {
    c == ' ' || c == '\t' || c == '\n' || c == '\r'
  }

  predicate AllSpace(s: string) {
    forall k :: 0 <= k < |s| ==> IsSpace(s[k])
  }

  /** Drops the leading whitespace: the result is the suffix of s that starts
      at its first non-whitespace character. */
  function TrimStart(s: string): (r: string)
    ensures |r| <= |s| && r == s[|s| - |r|..]
    ensures AllSpace(s[..|s| - |r|])
    ensures r == [] || !IsSpace(r[0])
  {
    if s != [] && IsSpace(s[0]) then
      var r := TrimStart(s[1..]);
      assert s[..|s| - |r|] == [s[0]] + s[1..][..|s| - 1 - |r|];
      r
    else s
  }

  /** Drops the trailing whitespace: the result is the prefix of s that ends
      at its last non-whitespace character. */
  function TrimEnd(s: string): (r: string)
    ensures |r| <= |s| && r == s[..|r|]
    ensures AllSpace(s[|r|..])
    ensures r == [] || !IsSpace(r[|r| - 1])
  {
    if s != [] && IsSpace(s[|s| - 1]) then
      var r := TrimEnd(s[..|s| - 1]);
      assert s[|r|..] == s[..|s| - 1][|r|..] + [s[|s| - 1]];
      r
    else s
  }

  /** trim: the slice of s between its first and last non-whitespace
      characters; empty exactly when s is all whitespace. */
  function Trim(s: string): (r: string)
    ensures r == [] <==> AllSpace(s)
    ensures r != [] ==> !IsSpace(r[0]) && !IsSpace(r[|r| - 1])
    ensures |r| <= |s|
    ensures Surrounded(s, r)
  {
    var t := TrimStart(s);
    var r := TrimEnd(t);
    AllSpaceAppend(s[..|s| - |t|], t);
    AllSpaceAppend(r, t[|r|..]);
    MiddleSlice(s, t, r);
    r
  }

  /** r is a slice of s with only whitespace before and after it. */
  predicate Surrounded(s: string, r: string) {
    exists i :: 0 <= i <= |s| - |r| && r == s[i..i + |r|] && AllSpace(s[..i]) && AllSpace(s[i + |r|..])
  }

  /** A prefix r of a suffix t of s, with whitespace before t and after r,
      is a slice of s with only whitespace around it. */
  lemma MiddleSlice(s: string, t: string, r: string)
    requires |t| <= |s| && t == s[|s| - |t|..] && AllSpace(s[..|s| - |t|])
    requires |r| <= |t| && r == t[..|r|] && AllSpace(t[|r|..])
    ensures Surrounded(s, r)
  {
    var i := |s| - |t|;
    assert r == s[i..i + |r|];
    assert s[i + |r|..] == t[|r|..];
  }

  lemma AllSpaceAppend(a: string, b: string)
    ensures AllSpace(a + b) <==> AllSpace(a) && AllSpace(b)
  {
    var ab := a + b;
    assert forall k :: 0 <= k < |a| ==> ab[k] == a[k];
    assert forall k :: 0 <= k < |b| ==> ab[|a| + k] == b[k];
  }

  /** tolower on one character, as the C locale does it: only 'A'..'Z' change. */
  function LowerChar(c: char): (r: char)
    ensures !('A' <= r <= 'Z')
    ensures IsSpace(r) == IsSpace(c)
    ensures !('A' <= c <= 'Z') ==> r == c
  {
    if 'A' <= c <= 'Z' then (c as int - 'A' as int + 'a' as int) as char else c
  }

  /** toLowerStr: every character lower-cased, the length unchanged. */
  function ToLower(s: string): (r: string)
    ensures |r| == |s|
    ensures forall k :: 0 <= k < |s| ==> r[k] == LowerChar(s[k])
  {
    if s == [] then [] else [LowerChar(s[0])] + ToLower(s[1..])
  }

  /** isCancel: the trimmed, lower-cased answer is "cancel" or "c". */
  predicate IsCancel(s: string) {
    IsCancelWord(ToLower(Trim(s)))
  }

  predicate IsCancelWord(t: string) {
    t == "cancel" || t == "c"
  }

  /** sub occurs in s starting at index i. */
  predicate OccursAt(s: string, sub: string, i: int) {
    0 <= i <= |s| - |sub| && s[i..i + |sub|] == sub
  }

  /** string::find(sub) != npos. */
  predicate Contains(s: string, sub: string) {
    exists i :: 0 <= i <= |s| - |sub| && OccursAt(s, sub, i)
  }

  /** Index of the first occurrence of c in s, or |s| when there is none. */
  function Find(s: string, c: char): (r: nat)
    ensures r <= |s|
    ensures forall k :: 0 <= k < r ==> s[k] != c
    ensures r < |s| ==> s[r] == c
  {
    if s == [] || s[0] == c then 0 else 1 + Find(s[1..], c)
  }

  /** The first c of p + [c] + q is the one after p when p has none. */
  lemma FindAfter(p: string, c: char, q: string)
    requires c !in p
    ensures Find(p + [c] + q, c) == |p|
  {
    var s := p + [c] + q;
    assert forall k :: 0 <= k < |p| ==> s[k] == p[k];
    assert s[|p|] == c;
  }

  /** The fields that repeated getline(stream, field, ',') extracts from the
      rest of a line, given the text of the field being read: a comma closes
      the field, any other character extends it, and at the end of the line
      the field is extracted only when it is not empty. */
  function FieldsFrom(field: string, rest: string): (r: seq<string>)
    ensures r == [] <==> field == [] && rest == []
    decreases |rest|
  {
    if rest == [] then (if field == [] then [] else [field])
    else if rest[0] == ',' then [field] + FieldsFrom([], rest[1..])
    else FieldsFrom(field + [rest[0]], rest[1..])
  }

  /** The fields of a line: text between commas; an empty line gives none,
      and an empty field after a final comma is not extracted. */
  function Fields(s: string): (r: seq<string>)
    ensures r == [] <==> s == []
  {
    FieldsFrom([], s)
  }

  /** No field holds a comma. */
  lemma {:induction false} FieldsFromHaveNoComma(field: string, rest: string)
    requires ',' !in field
    ensures forall k :: 0 <= k < |FieldsFrom(field, rest)| ==> ',' !in FieldsFrom(field, rest)[k]
    decreases |rest|
  {
    if rest != [] {
      if rest[0] == ',' {
        FieldsFromHaveNoComma([], rest[1..]);
      } else {
        FieldsFromHaveNoComma(field + [rest[0]], rest[1..]);
      }
    }
  }

  lemma FieldsHaveNoComma(s: string)
    ensures forall k :: 0 <= k < |Fields(s)| ==> ',' !in Fields(s)[k]
  {
    FieldsFromHaveNoComma([], s);
  }

  /** Text without a comma extends the field being read up to the next comma. */
  lemma {:induction false} FieldsFromComma(field: string, p: string, q: string)
    requires ',' !in p
    ensures FieldsFrom(field, p + [','] + q) == [field + p] + FieldsFrom([], q)
    decreases |p|
  {
    var s := p + [','] + q;
    if p == [] {
      assert s[0] == ',' && s[1..] == q;
      assert field + p == field;
    } else {
      assert s[0] == p[0] && s[1..] == p[1..] + [','] + q;
      FieldsFromComma(field + [p[0]], p[1..], q);
      assert field + [p[0]] + p[1..] == field + p;
    }
  }

  /** Text without a comma up to the end of the line is the last field. */
  lemma {:induction false} FieldsFromEnd(field: string, p: string)
    requires ',' !in p
    ensures FieldsFrom(field, p) == if field + p == [] then [] else [field + p]
    decreases |p|
  {
    if p == [] {
      assert field + p == field;
    } else {
      FieldsFromEnd(field + [p[0]], p[1..]);
      assert field + [p[0]] + p[1..] == field + p;
    }
  }

  /** When the first comma of a line follows the text p, the first field is p. */
  lemma FieldsAtComma(p: string, q: string)
    requires ',' !in p
    ensures Fields(p + [','] + q) == [p] + Fields(q)
  {
    FieldsFromComma([], p, q);
    assert [] + p == p;
  }

  /** A line without commas is one field. */
  lemma FieldsWithoutComma(s: string)
    requires s != [] && ',' !in s
    ensures Fields(s) == [s]
  {
    FieldsFromEnd([], s);
    assert [] + s == s;
  }

  /** The fields written with a comma between each two: one CSV row. */
  function Join(fields: seq<string>): string {
    if |fields| == 0 then ""
    else if |fields| == 1 then fields[0]
    else fields[0] + "," + Join(fields[1..])
  }

  /** A row starts with its first field. */
  lemma JoinStart(fields: seq<string>)
    requires fields != []
    ensures |Join(fields)| >= |fields[0]| && Join(fields)[..|fields[0]|] == fields[0]
  {
  }

  /** Trimming a trimmed string changes nothing. */
  lemma TrimIdempotent(s: string)
    ensures Trim(Trim(s)) == Trim(s)
  {
    var r := Trim(s);
    assert TrimStart(r) == r;
    assert TrimEnd(r) == r;
  }

  /** Lower-casing a lower-cased string changes nothing. */
  lemma ToLowerIdempotent(s: string)
    ensures ToLower(ToLower(s)) == ToLower(s)
  {
  }

  lemma {:induction false} TrimStartLower(s: string)
    ensures TrimStart(ToLower(s)) == ToLower(TrimStart(s))
    decreases |s|
  {
    var l := ToLower(s);
    if s != [] {
      assert l[1..] == ToLower(s[1..]);
      if IsSpace(s[0]) {
        TrimStartLower(s[1..]);
      }
    }
  }

  lemma {:induction false} TrimEndLower(s: string)
    ensures TrimEnd(ToLower(s)) == ToLower(TrimEnd(s))
    decreases |s|
  {
    var l := ToLower(s);
    if s != [] {
      assert l[..|l| - 1] == ToLower(s[..|s| - 1]);
      if IsSpace(s[|s| - 1]) {
        TrimEndLower(s[..|s| - 1]);
      }
    }
  }

  /** Lower-casing never touches whitespace, so trimming and lower-casing
      commute. */
  lemma TrimLowerCommute(s: string)
    ensures Trim(ToLower(s)) == ToLower(Trim(s))
  {
    TrimStartLower(s);
    TrimEndLower(TrimStart(s));
  }

  /** The cancel test ignores letter case. */
  lemma CancelIgnoresCase(s: string)
    ensures IsCancel(ToLower(s)) == IsCancel(s)
  {
    TrimLowerCommute(s);
    CancelWordOfLower(Trim(ToLower(s)), Trim(s));
  }

  /** The cancel word test sees a lower-cased string as it sees the original. */
  lemma CancelWordOfLower(a: string, b: string)
    requires a == ToLower(b)
    ensures IsCancelWord(ToLower(a)) == IsCancelWord(ToLower(b))
  {
    ToLowerIdempotent(b);
  }

  /** The cancel test ignores surrounding whitespace. */
  lemma CancelIgnoresSpace(s: string)
    ensures IsCancel(Trim(s)) == IsCancel(s)
  {
    TrimIdempotent(s);
  }

  /** Parsing a saved row gives back its fields, when no field contains a
      comma and the last one is not empty. */
  lemma {:induction false} FieldsOfJoin(fields: seq<string>)
    requires forall k :: 0 <= k < |fields| ==> ',' !in fields[k]
    requires fields == [] || fields[|fields| - 1] != []
    ensures Fields(Join(fields)) == fields
    decreases |fields|
  {
    if |fields| == 1 {
      FieldsWithoutComma(fields[0]);
    } else if |fields| > 1 {
      var rest := fields[1..];
      FieldsOfJoin(rest);
      assert Join(fields) == fields[0] + [','] + Join(rest);
      FieldsAtComma(fields[0], Join(rest));
    }
  }

  /** Joining the fields of a line gives the line back, unless the line ends
      in a comma (the empty field after it is lost). */
  lemma {:induction false} JoinOfFields(s: string)
    requires s == [] || s[|s| - 1] != ','
    ensures Join(Fields(s)) == s
    decreases |s|
  {
    var i := Find(s, ',');
    if i == |s| {
      if s != [] {
        FieldsWithoutComma(s);
      }
    } else {
      var first, rest := s[..i], s[i + 1..];
      assert s == first + [','] + rest;
      assert rest != [] && rest[|rest| - 1] == s[|s| - 1];
      FieldsAtComma(first, rest);
      JoinOfFields(rest);
      var f := Fields(rest);
      assert ([first] + f)[1..] == f;
    }
  }

  /** getline does not extract the empty field after a trailing comma: a row
      whose last field is empty parses to one field fewer. */
  lemma {:induction false} EmptyLastFieldIsLost(fields: seq<string>)
    requires fields != [] && fields[|fields| - 1] != []
    requires forall k :: 0 <= k < |fields| ==> ',' !in fields[k]
    ensures Fields(Join(fields + [""])) == fields
    decreases |fields|
  {
    var all := fields + [""];
    if |fields| == 1 {
      assert Join(all) == fields[0] + [','] + "";
      FieldsAtComma(fields[0], "");
    } else {
      var rest := fields[1..];
      assert all[1..] == rest + [""];
      EmptyLastFieldIsLost(rest);
      assert Join(all) == fields[0] + [','] + Join(rest + [""]);
      FieldsAtComma(fields[0], Join(rest + [""]));
    }
  }

  /** One character of the line read. */
  lemma FieldsFromStep(field: string, line: string, i: nat)
    requires i < |line|
    ensures FieldsFrom(field, line[i..]) ==
      if line[i] == ',' then [field] + FieldsFrom([], line[i + 1..])
      else FieldsFrom(field + [line[i]], line[i + 1..])
  {
    assert line[i..][0] == line[i] && line[i..][1..] == line[i + 1..];
  }

  /** parseCSV: reads the fields of a line one character at a time, as the
      getline loop does. */
  method ParseCsv(line: string) returns (fields: seq<string>)
    ensures fields == Fields(line)
  {
    fields := [];
    var field := "";
    var i := 0;
    assert line[i..] == line;
    while i < |line|
      invariant 0 <= i <= |line|
      invariant fields + FieldsFrom(field, line[i..]) == Fields(line)
    {
      FieldsFromStep(field, line, i);
      if line[i] == ',' {
        fields := fields + [field];
        field := "";
      } else {
        field := field + [line[i]];
      }
      i := i + 1;
    }
    assert line[i..] == [];
    if field != [] {
      fields := fields + [field];
    }
  }

}
