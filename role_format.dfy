/** `roleDisplay`, the label both pages build from the role name:
    `roleName.split('_').map(word => word.charAt(0).toUpperCase() + word.slice(1)).join(' ')`.
    Case mapping is ASCII only. */
module RoleFormat {

  /** `toUpperCase` on one ASCII character. */
  function Upper(c: char): (u: char)
    ensures c != '_' ==> u != '_'
    ensures ('a' <= c <= 'z') ==> 'A' <= u <= 'Z'
    ensures !('a' <= c <= 'z') ==> u == c
  {
    if 'a' <= c <= 'z' then ((c as int) - 32) as char else c
  }

  /** `s.split(sep)`: the pieces between occurrences of `sep`, empty pieces
      included, so there is always at least one. */
  function Split(s: string, sep: char): (parts: seq<string>)
    ensures |parts| >= 1
    ensures forall k, i :: 0 <= k < |parts| && 0 <= i < |parts[k]| ==> parts[k][i] != sep
  {
    if s == "" then [""]
    else if s[0] == sep then [""] + Split(s[1..], sep)
    else
      var rest := Split(s[1..], sep);
      [[s[0]] + rest[0]] + rest[1..]
  }

  /** `parts.join(sep)`. */
  function Join(parts: seq<string>, sep: char): string {
    if |parts| == 0 then ""
    else if |parts| == 1 then parts[0]
    else parts[0] + [sep] + Join(parts[1..], sep)
  }

  /** `word.charAt(0).toUpperCase() + word.slice(1)`. */
  function Capitalize(w: string): string {
    if w == "" then "" else [Upper(w[0])] + w[1..]
  }

  /** `words.map(Capitalize)`. */
  function CapitalizeAll(words: seq<string>): (r: seq<string>)
    ensures |r| == |words|
    ensures forall k :: 0 <= k < |words| ==> r[k] == Capitalize(words[k])
  {
    if words == [] then [] else [Capitalize(words[0])] + CapitalizeAll(words[1..])
  }

  function RoleDisplay(roleName: string): string {
    Join(CapitalizeAll(Split(roleName, '_')), ' ')
  }

  /** Number of occurrences of `c` in `s`. */
  function Count(s: string, c: char): nat {
    if s == "" then 0 else (if s[0] == c then 1 else 0) + Count(s[1..], c)
  }

  /** The character RoleDisplay puts at position `i`: an underscore becomes a
      space, the first character of each word is upper-cased, every other
      character is kept. */
  function DisplayChar(s: string, i: nat): char
    requires i < |s|
  {
    if s[i] == '_' then ' '
    else if i == 0 || s[i - 1] == '_' then Upper(s[i])
    else s[i]
  }

  // ---------------------------------------------------------------------
  // Split and Join

  /** Joining the pieces with the separator they were split on gives the
      original string back. */
  lemma {:induction false} JoinSplit(s: string, sep: char)
    ensures Join(Split(s, sep), sep) == s
  {
    if s != "" {
      var rest := Split(s[1..], sep);
      JoinSplit(s[1..], sep);
      if s[0] == sep {
        assert Split(s, sep) == [""] + rest;
        assert ([""] + rest)[1..] == rest;
      } else {
        var parts := Split(s, sep);
        assert parts == [[s[0]] + rest[0]] + rest[1..];
        if |rest| == 1 {
          assert s == [s[0]] + s[1..];
        } else {
          assert parts[1..] == rest[1..];
          assert Join(rest, sep) == rest[0] + [sep] + Join(rest[1..], sep);
          assert s == [s[0]] + s[1..];
        }
      }
    }
  }

  /** There is one word more than there are underscores. */
  lemma {:induction false} SplitCount(s: string, sep: char)
    ensures |Split(s, sep)| == Count(s, sep) + 1
  {
    if s != "" {
      SplitCount(s[1..], sep);
    }
  }

  // ---------------------------------------------------------------------
  // RoleDisplay, character by character

  /** Reference definition of RoleDisplay read left to right: `atStart` says
      whether the next character begins a word. */
  function DisplayFrom(s: string, atStart: bool): string {
    if s == "" then ""
    else if s[0] == '_' then " " + DisplayFrom(s[1..], true)
    else [if atStart then Upper(s[0]) else s[0]] + DisplayFrom(s[1..], false)
  }

  /** What follows the first word in the joined, capitalised pieces. */
  function AfterFirst(parts: seq<string>): string
    requires |parts| >= 1
  {
    if |parts| == 1 then "" else " " + Join(CapitalizeAll(parts[1..]), ' ')
  }

  lemma JoinCapitalizeAllUnfold(parts: seq<string>)
    requires |parts| >= 1
    ensures Join(CapitalizeAll(parts), ' ') == Capitalize(parts[0]) + AfterFirst(parts)
  {
    if |parts| == 1 {
      JoinCapitalizeAllOne(parts);
    } else {
      JoinCapitalizeAllMore(parts);
    }
  }

  lemma JoinCapitalizeAllOne(parts: seq<string>)
    requires |parts| == 1
    ensures Join(CapitalizeAll(parts), ' ') == Capitalize(parts[0]) + AfterFirst(parts)
  {
    JoinSingle(CapitalizeAll(parts));
  }

  lemma JoinCapitalizeAllMore(parts: seq<string>)
    requires |parts| > 1
    ensures Join(CapitalizeAll(parts), ' ') == Capitalize(parts[0]) + AfterFirst(parts)
  {
    CapitalizeAllTail(parts);
    JoinCons(CapitalizeAll(parts));
  }

  lemma CapitalizeAllTail(parts: seq<string>)
    requires |parts| >= 1
    ensures CapitalizeAll(parts)[1..] == CapitalizeAll(parts[1..])
  {
  }

  lemma JoinSingle(c: seq<string>)
    requires |c| == 1
    ensures Join(c, ' ') == c[0] + ""
  {
    assert c[0] + "" == c[0];
  }

  lemma JoinCons(c: seq<string>)
    requires |c| > 1
    ensures Join(c, ' ') == c[0] + " " + Join(c[1..], ' ')
  {
  }

  /** Both readings of the first word agree with DisplayFrom. */
  predicate SplitMatches(s: string) {
    && Capitalize(Split(s, '_')[0]) + AfterFirst(Split(s, '_')) == DisplayFrom(s, true)
    && Split(s, '_')[0] + AfterFirst(Split(s, '_')) == DisplayFrom(s, false)
  }

  lemma {:induction false} SplitMatchesDisplayFrom(s: string)
    ensures SplitMatches(s)
  {
    if s != "" {
      SplitMatchesDisplayFrom(s[1..]);
      if s[0] == '_' {
        SplitMatchesUnderscore(s);
      } else {
        SplitMatchesLetter(s);
      }
    }
  }

  lemma SplitMatchesUnderscore(s: string)
    requires s != "" && s[0] == '_' && SplitMatches(s[1..])
    ensures SplitMatches(s)
  {
    var rest := Split(s[1..], '_');
    JoinCapitalizeAllUnfold(rest);
    var parts := Split(s, '_');
    assert parts == [""] + rest;
    assert parts[1..] == rest;
  }

  lemma SplitMatchesLetter(s: string)
    requires s != "" && s[0] != '_' && SplitMatches(s[1..])
    ensures SplitMatches(s)
  {
    LetterStep(s, Split(s, '_'), Split(s[1..], '_'));
  }

  /** The letter case of SplitMatchesDisplayFrom, stated on the pieces
      alone. */
  lemma LetterStep(s: string, parts: seq<string>, rest: seq<string>)
    requires s != "" && s[0] != '_' && |rest| >= 1
    requires parts == [[s[0]] + rest[0]] + rest[1..]
    requires rest[0] + AfterFirst(rest) == DisplayFrom(s[1..], false)
    ensures Capitalize(parts[0]) + AfterFirst(parts) == DisplayFrom(s, true)
    ensures parts[0] + AfterFirst(parts) == DisplayFrom(s, false)
  {
    var tail := AfterFirst(rest);
    AfterFirstSameTail(parts, rest);
    CapitalizeCons(s[0], rest[0]);
    StrAssoc([s[0]], rest[0], tail);
    StrAssoc([Upper(s[0])], rest[0], tail);
  }

  /** Capitalising a word whose first letter is `c` and whose upper-case
      form is `u`. */
  lemma CapitalizeWord(c: char, rest: string, u: char)
    requires 'a' <= c <= 'z' && u as int == c as int - 32
    ensures Capitalize([c] + rest) == [u] + rest
  {
    CapitalizeCons(c, rest);
  }

  lemma CapitalizeCons(c: char, w: string)
    ensures Capitalize([c] + w) == [Upper(c)] + w
  {
    assert ([c] + w)[1..] == w;
  }

  lemma StrAssoc(x: string, y: string, z: string)
    ensures x + (y + z) == (x + y) + z
  {
  }

  lemma AfterFirstSameTail(p: seq<string>, q: seq<string>)
    requires |p| >= 1 && |q| >= 1 && p[1..] == q[1..]
    ensures AfterFirst(p) == AfterFirst(q)
  {
    assert |p| == |p[1..]| + 1 && |q| == |q[1..]| + 1;
  }

  lemma {:induction false} DisplayFromAt(s: string, atStart: bool, i: nat)
    requires i < |s|
    ensures |DisplayFrom(s, atStart)| == |s|
    ensures DisplayFrom(s, atStart)[i] ==
      if s[i] == '_' then ' '
      else if (i == 0 && atStart) || (i > 0 && s[i - 1] == '_') then Upper(s[i])
      else s[i]
  {
    if i > 0 {
      DisplayFromAt(s[1..], s[0] == '_', i - 1);
    } else if |s| > 1 {
      DisplayFromAt(s[1..], s[0] == '_', 0);
    } else {
      assert s[1..] == "";
    }
  }

  lemma RoleDisplayIsDisplayFrom(s: string)
    ensures RoleDisplay(s) == DisplayFrom(s, true)
  {
    JoinCapitalizeAllUnfold(Split(s, '_'));
    SplitMatchesDisplayFrom(s);
  }

  /** RoleDisplay keeps the length of the role name and maps it character by
      character: underscores become spaces, each word's first character is
      upper-cased, the rest of each word is unchanged. */
  lemma RoleDisplayCharwise(s: string)
    ensures |RoleDisplay(s)| == |s|
    ensures forall i :: 0 <= i < |s| ==> RoleDisplay(s)[i] == DisplayChar(s, i)
  {
    RoleDisplayIsDisplayFrom(s);
    if s == "" {
    } else {
      DisplayFromAt(s, true, 0);
    }
    forall i | 0 <= i < |s|
      ensures RoleDisplay(s)[i] == DisplayChar(s, i)
    {
      DisplayFromAt(s, true, i);
    }
  }

  /** The label holds no underscore. */
  lemma RoleDisplayHasNoUnderscore(s: string)
    ensures forall i :: 0 <= i < |RoleDisplay(s)| ==> RoleDisplay(s)[i] != '_'
  {
    RoleDisplayCharwise(s);
  }

  /** Spaces of the label are exactly the underscores of the role name, each
      empty word stays, so the label has one word more than the name has
      underscores. */
  lemma RoleDisplayWords(s: string)
    ensures |CapitalizeAll(Split(s, '_'))| == Count(s, '_') + 1
    ensures |RoleDisplay(s)| == |s|
    ensures forall i :: 0 <= i < |s| ==> (RoleDisplay(s)[i] == ' ' <==> s[i] == '_' || s[i] == ' ')
  {
    SplitCount(s, '_');
    RoleDisplayCharwise(s);
  }

  /** A name without an underscore is one word: its label is the name
      capitalised. */
  lemma OneWordLabel(a: string)
    requires '_' !in a
    ensures RoleDisplay(a) == Capitalize(a)
  {
    var r := Capitalize(a);
    RoleDisplayCharwise(a);
    forall i | 0 <= i < |a|
      ensures r[i] == DisplayChar(a, i)
    {
      assert i > 0 ==> a[i - 1] != '_';
    }
  }

  /** The labels of the stock roles. */
  lemma ViewerLabel()
    ensures RoleDisplay("viewer") == "Viewer"
  {
    OneWordLabel("viewer");
    CapitalizeWord('v', "iewer", 'V');
  }

  lemma AdminLabel()
    ensures RoleDisplay("admin") == "Admin"
  {
    OneWordLabel("admin");
    CapitalizeWord('a', "dmin", 'A');
  }

  /** The label of two words joined by one underscore is the two words
      capitalised, with a space between them. */
  lemma TwoWordsLabel(a: string, b: string)
    requires '_' !in a && '_' !in b
    ensures RoleDisplay(a + "_" + b) == Capitalize(a) + " " + Capitalize(b)
  {
    var s := a + "_" + b;
    var r := Capitalize(a) + " " + Capitalize(b);
    RoleDisplayCharwise(s);
    forall i | 0 <= i < |s|
      ensures r[i] == DisplayChar(s, i)
    {
      if i < |a| {
        assert s[i] == a[i];
        assert i > 0 ==> s[i - 1] == a[i - 1];
      } else if i > |a| {
        assert s[i] == b[i - |a| - 1];
        assert i - 1 > |a| ==> s[i - 1] == b[i - |a| - 2];
      }
    }
  }

  /** TwoWordsLabel for two words that start with a lower-case letter. */
  lemma TwoLowerWordsLabel(c: char, r: string, u: char, d: char, t: string, v: char)
    requires 'a' <= c <= 'z' && u as int == c as int - 32 && '_' !in r
    requires 'a' <= d <= 'z' && v as int == d as int - 32 && '_' !in t
    ensures RoleDisplay([c] + r + "_" + ([d] + t)) == [u] + r + " " + ([v] + t)
  {
    TwoWordsLabel([c] + r, [d] + t);
    CapitalizeWord(c, r, u);
    CapitalizeWord(d, t, v);
  }

  lemma SuperAdminLabel()
    ensures RoleDisplay("super_admin") == "Super Admin"
  {
    TwoLowerWordsLabel('s', "uper", 'S', 'a', "dmin", 'A');
    assert "super_admin" == ['s'] + "uper" + "_" + (['a'] + "dmin");
    assert "Super Admin" == ['S'] + "uper" + " " + (['A'] + "dmin");
  }

  /** A name with an empty word keeps it: two underscores give two spaces. */
  lemma EmptyWordLabel()
    ensures RoleDisplay("a__b") == "A  B"
  {
    RoleDisplayCharwise("a__b");
  }
}
