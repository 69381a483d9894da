/** Identifier case conversion shared by the two generators: `to_pascal_case`
    and `to_camel_case` have the same definition in yaml2rs.py and yaml2ui.py. */
module Naming {
  import opened Strings

  /** `s` with every occurrence of `c` removed. */
  function RemoveAll(s: string, c: char): (r: string)
    ensures c !in r
    ensures |r| <= |s|
  {
    if s == [] then [] else (if s[0] == c then [] else [s[0]]) + RemoveAll(s[1..], c)
  }

  lemma {:induction false} RemoveAllAppend(a: string, b: string, c: char)
    ensures RemoveAll(a + b, c) == RemoveAll(a, c) + RemoveAll(b, c)
  {
    if a != [] {
      assert (a + b)[1..] == a[1..] + b;
      RemoveAllAppend(a[1..], b, c);
    } else {
      assert a + b == b;
    }
  }

  lemma {:induction false} RemoveAllAbsent(s: string, c: char)
    requires c !in s
    ensures RemoveAll(s, c) == s
  {
    if s != [] {
      RemoveAllAbsent(s[1..], c);
    }
  }

  /** Removing the separator from the joined parts leaves their concatenation. */
  lemma {:induction false} RemoveSeparator(parts: seq<string>, c: char)
    requires forall i :: 0 <= i < |parts| ==> c !in parts[i]
    ensures RemoveAll(Join([c], parts), c) == Concat(parts)
  {
    if parts == [] {
    } else if |parts| == 1 {
      RemoveAllAbsent(parts[0], c);
      assert Concat(parts[1..]) == [];
    } else {
      var head, tail := parts[0], Join([c], parts[1..]);
      assert Join([c], parts) == head + [c] + tail;
      RemoveSeparator(parts[1..], c);
      RemoveAllAppend(head + [c], tail, c);
      RemoveAllAppend(head, [c], c);
      RemoveAllAbsent(head, c);
      assert RemoveAll([c], c) == [] by {
        assert [c][1..] == [];
      }
      assert RemoveAll(head + [c], c) == head;
    }
  }

  lemma LowerAppend(a: string, b: string)
    ensures Lower(a + b) == Lower(a) + Lower(b)
  {
  }

  lemma LowerCapitalize(w: string)
    ensures Lower(Capitalize(w)) == Lower(w)
  {
    if w != [] {
      LowerAppend([ToUpperChar(w[0])], Lower(w[1..]));
      assert Capitalize(w) == [ToUpperChar(w[0])] + Lower(w[1..]);
      assert forall i :: 0 <= i < |w| - 1 ==> ToLowerChar(Lower(w[1..])[i]) == ToLowerChar(w[1..][i]);
      assert Lower(w) == [ToLowerChar(w[0])] + Lower(w[1..]);
    }
  }

  /** `''.join(word.capitalize() for word in parts if word)` */
  function JoinCapitalized(parts: seq<string>): (r: string)
    ensures r != [] ==> !IsLower(r[0])
    ensures (forall i :: 0 <= i < |parts| ==> '_' !in parts[i]) ==> '_' !in r
    ensures Lower(r) == Lower(Concat(parts))
  {
    if parts == [] then []
    else
      var rest := JoinCapitalized(parts[1..]);
      var w := if parts[0] == [] then [] else Capitalize(parts[0]);
      LowerAppend(w, rest);
      LowerAppend(parts[0], Concat(parts[1..]));
      LowerCapitalize(parts[0]);
      assert forall i :: 1 <= i < |parts| ==> parts[i] == parts[1..][i - 1];
      w + rest
  }

  /** `to_pascal_case`: a name without underscores only has its first letter
      raised; an underscored name becomes its capitalized non-empty parts. */
  function ToPascalCase(s: string): (r: string)
    ensures s == [] ==> r == []
    ensures '_' !in s && s != [] && IsUpper(s[0]) ==> r == s
    ensures '_' !in s && s != [] ==> r == [ToUpperChar(s[0])] + s[1..]
    ensures '_' !in r
    ensures r != [] ==> !IsLower(r[0])
    ensures Lower(r) == Lower(RemoveAll(s, '_'))
  {
    if s == [] then []
    else if '_' !in s then
      RemoveAllAbsent(s, '_');
      LowerAppend([s[0]], s[1..]);
      LowerAppend([ToUpperChar(s[0])], s[1..]);
      assert s == [s[0]] + s[1..];
      if IsUpper(s[0]) then s else [ToUpperChar(s[0])] + s[1..]
    else
      var parts := Split(s, '_');
      RemoveSeparator(parts, '_');
      JoinCapitalized(parts)
  }

  /** Converting twice changes nothing more. */
  lemma PascalCaseIsIdempotent(s: string)
    ensures ToPascalCase(ToPascalCase(s)) == ToPascalCase(s)
  {
    var r := ToPascalCase(s);
    if r != [] {
      assert [ToUpperChar(r[0])] + r[1..] == r;
    }
  }

  /** `to_camel_case`: the part before the first underscore is kept as it is,
      the remaining parts are capitalized. */
  function ToCamelCase(s: string): (r: string)
    ensures StartsWith(r, Split(s, '_')[0])
    ensures '_' !in r
  {
    var parts := Split(s, '_');
    TailParts(parts, '_');
    var rest := JoinCapitalized(parts[1..]);
    assert (parts[0] + rest)[..|parts[0]|] == parts[0];
    parts[0] + rest
  }

  /** The parts after the first also lack the separator. */
  lemma TailParts(parts: seq<string>, sep: char)
    requires |parts| >= 1 && forall i :: 0 <= i < |parts| ==> sep !in parts[i]
    ensures forall i :: 0 <= i < |parts[1..]| ==> sep !in parts[1..][i]
  {
    forall i | 0 <= i < |parts[1..]| ensures sep !in parts[1..][i] {
      assert parts[1..][i] == parts[i + 1];
    }
  }

  /** camelCase spells the letters of the name without its underscores, and
      leaves a name without underscores as it is. */
  lemma CamelCaseLetters(s: string)
    ensures Lower(ToCamelCase(s)) == Lower(RemoveAll(s, '_'))
    ensures '_' !in s ==> ToCamelCase(s) == s
  {
    var parts := Split(s, '_');
    var rest := JoinCapitalized(parts[1..]);
    RemoveSeparator(parts, '_');
    LowerAppend(parts[0], rest);
    LowerAppend(parts[0], Concat(parts[1..]));
    if '_' !in s {
      assert parts == [s];
      assert parts[1..] == [];
    }
  }

  /** For an underscored name whose first part is not empty, the PascalCase
      form is the camelCase form with the first part capitalized. */
  lemma PascalAndCamel(s: string)
    requires '_' in s && Split(s, '_')[0] != []
    ensures var first := Split(s, '_')[0];
            ToPascalCase(s) == Capitalize(first) + ToCamelCase(s)[|first|..]
  {
    var parts := Split(s, '_');
    var c := ToCamelCase(s);
    assert c == parts[0] + JoinCapitalized(parts[1..]);
    assert c[|parts[0]|..] == JoinCapitalized(parts[1..]);
  }

  lemma PascalCaseSingleWords()
    ensures ToPascalCase("users") == "Users"
    ensures ToPascalCase("XMLHttpRequest") == "XMLHttpRequest"
  {
    assert '_' !in "users";
    assert '_' !in "XMLHttpRequest";
  }

  /** Two words joined by one underscore, as in `user_profiles`: PascalCase
      capitalizes both, camelCase only the second. */
  lemma TwoWords(a: string, b: string)
    requires '_' !in a && '_' !in b
    ensures ToPascalCase(a + "_" + b) == Capitalize(a) + Capitalize(b)
    ensures ToCamelCase(a + "_" + b) == a + Capitalize(b)
  {
    var ws := [a, b];
    assert Join("_", ws) == a + "_" + b by {
      assert ws[1..] == [b];
    }
    assert Concat(CapitalizeEach(ws[1..])) == Capitalize(b) by {
      var cb := CapitalizeEach([b]);
      assert ws[1..] == [b] && cb == [Capitalize(b)] && cb[1..] == [];
    }
    assert Concat(CapitalizeEach(ws)) == Capitalize(a) + Capitalize(b) by {
      assert CapitalizeEach(ws)[1..] == CapitalizeEach(ws[1..]);
    }
    Words(ws);
  }

  /** Every part capitalized, in order. */
  function CapitalizeEach(ws: seq<string>): (r: seq<string>)
    ensures |r| == |ws| && forall i :: 0 <= i < |ws| ==> r[i] == Capitalize(ws[i])
  {
    seq(|ws|, i requires 0 <= i < |ws| => Capitalize(ws[i]))
  }

  /** Skipping empty parts changes nothing, since an empty part capitalizes to
      nothing: the joined form is the concatenation of the capitalized parts. */
  lemma {:induction false} JoinCapitalizedEach(ws: seq<string>)
    ensures JoinCapitalized(ws) == Concat(CapitalizeEach(ws))
  {
    if ws != [] {
      JoinCapitalizedEach(ws[1..]);
      assert CapitalizeEach(ws)[1..] == CapitalizeEach(ws[1..]);
    }
  }

  /** Any number of words joined by underscores, as in `order_line_items`:
      PascalCase capitalizes every word, camelCase every word but the first. */
  lemma Words(ws: seq<string>)
    requires |ws| >= 1 && forall i :: 0 <= i < |ws| ==> '_' !in ws[i]
    ensures |ws| >= 2 ==> ToPascalCase(Join("_", ws)) == Concat(CapitalizeEach(ws))
    ensures ToCamelCase(Join("_", ws)) == ws[0] + Concat(CapitalizeEach(ws[1..]))
  {
    var s := Join("_", ws);
    SplitJoin(ws, '_');
    JoinCapitalizedEach(ws);
    JoinCapitalizedEach(ws[1..]);
    if |ws| >= 2 {
      assert s == ws[0] + "_" + Join("_", ws[1..]);
      assert s[|ws[0]|] == '_';
    }
  }

  /** A word without capitals is capitalized by raising its first letter. */
  lemma CapitalizeLowercase(w: string)
    requires w != [] && forall i :: 0 <= i < |w| ==> !IsUpper(w[i])
    ensures Capitalize(w) == [ToUpperChar(w[0])] + w[1..]
  {
    assert Lower(w[1..]) == w[1..];
  }
}
