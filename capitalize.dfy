/**
 * CapitalizeUtil.capitalizeWords: the name normaliser applied to every name
 * the importers compose before they resolve a location.
 */
module Capitalize {
  import opened Wrappers
  import opened Strings

  /** String.replace("\"", ""): every double quote removed, the rest kept in order. */
  function RemoveQuotes(s: string): (r: string)
    ensures |r| <= |s|
  {
    if s == [] then []
    else (if s[0] == '"' then [] else [s[0]]) + RemoveQuotes(s[1..])
  }

  /** No quote is left, and nothing new comes in. */
  lemma {:induction false} RemoveQuotesChars(s: string)
    ensures '"' !in RemoveQuotes(s)
    ensures forall c :: c in RemoveQuotes(s) ==> c in s
  {
    if s != [] {
      RemoveQuotesChars(s[1..]);
    }
  }

  /** Length of the leading run of characters outside \s. */
  function RunLength(s: string): (n: nat)
    ensures n <= |s|
    ensures forall i :: 0 <= i < n ==> !IsSpace(s[i])
    ensures n < |s| ==> IsSpace(s[n])
  {
    if s == [] || IsSpace(s[0]) then 0 else 1 + RunLength(s[1..])
  }

  /**
   * The non-empty pieces of String.split("\\s+"): the maximal runs of
   * characters outside \s, in order. (The split may also yield one leading
   * empty piece, which the loop of capitalizeWords skips.)
   */
  function Words(s: string): seq<string>
    decreases |s|
  {
    if s == [] then []
    else if IsSpace(s[0]) then Words(s[1..])
    else
      var n := RunLength(s);
      [s[..n]] + Words(s[n..])
  }

  /** A piece of a split: non-empty and free of \s characters. */
  predicate IsWord(w: string)
  {
    w != [] && forall i :: 0 <= i < |w| ==> !IsSpace(w[i])
  }

  /** A word none of whose characters String.trim would remove. */
  predicate IsSolid(w: string)
  {
    w != [] && forall i :: 0 <= i < |w| ==> !IsTrimmable(w[i])
  }

  /**
   * One word as capitalizeWords rewrites it: a word of at most two characters
   * is upper-cased whole, a longer one gets an upper-case first character and
   * a lower-cased rest.
   */
  function CapWord(w: string): (r: string)
    ensures |r| == |w|
  {
    if |w| <= 2 then ToUpper(w) else [UpperChar(w[0])] + ToLower(w[1..])
  }

  /** Character by character: upper case where the word is short or at its start, lower case elsewhere. */
  lemma CapWordChars(w: string)
    ensures forall i :: 0 <= i < |w| ==>
              CapWord(w)[i] == (if |w| <= 2 || i == 0 then UpperChar(w[i]) else LowerChar(w[i]))
  {
    if |w| <= 2 {
      ToUpperChars(w);
    } else {
      ToLowerChars(w[1..]);
    }
  }

  /** What the loop appends to the StringBuilder: every non-empty word, capitalised, then one space. */
  function Built(ws: seq<string>): string
  {
    if ws == [] then []
    else (if ws[0] == [] then [] else CapWord(ws[0]) + " ") + Built(ws[1..])
  }

  /** The result of capitalizeWords on a non-null input. */
  function Capitalized(s: string): string
  {
    if s == [] then s else Trim(Built(Words(RemoveQuotes(s))))
  }

  /** Words joined by single spaces. */
  function Join(ws: seq<string>): string
  {
    if ws == [] then [] else if |ws| == 1 then ws[0] else ws[0] + " " + Join(ws[1..])
  }

  function MapCap(ws: seq<string>): (r: seq<string>)
    ensures |r| == |ws| && forall i :: 0 <= i < |ws| ==> r[i] == CapWord(ws[i])
  {
    seq(|ws|, i requires 0 <= i < |ws| => CapWord(ws[i]))
  }

  /** capitalizeWords: null and "" come back unchanged, anything else is rebuilt word by word. */
  method CapitalizeWords(input: Option<string>) returns (r: Option<string>)
    ensures input.None? ==> r.None?
    ensures input == Some([]) ==> r == Some([])
    ensures input.Some? ==> r == Some(Capitalized(input.value))
  {
    if input.None? || input.value == [] {
      return input;
    }
    var text := RemoveQuotes(input.value);
    var words := Words(text);
    var formatted: string := [];
    for i := 0 to |words|
      invariant formatted + Built(words[i..]) == Built(words)
    {
      var word := words[i];
      ghost var before := formatted;
      if word != [] {
        var capWord: string;
        if |word| <= 2 {
          capWord := ToUpper(word);
        } else {
          capWord := [UpperChar(word[0])] + ToLower(word[1..]);
        }
        formatted := formatted + capWord + " ";
      }
      BuiltAppendStep(before, formatted, words, i);
    }
    assert words[|words|..] == [];
    assert formatted == Built(words);
    r := Some(Trim(formatted));
  }

  // ---------------------------------------------------------------------
  // Facts about the pieces

  lemma AppendAssoc(a: string, b: string, c: string)
    ensures (a + b) + c == a + (b + c)
  {
  }

  /** One turn of the capitalizeWords loop keeps the builder a prefix of Built(ws). */
  lemma BuiltAppendStep(before: string, after: string, ws: seq<string>, i: nat)
    requires i < |ws|
    requires before + Built(ws[i..]) == Built(ws)
    requires after == before + (if ws[i] == [] then [] else CapWord(ws[i]) + " ")
    ensures after + Built(ws[i + 1..]) == Built(ws)
  {
    var rest := ws[i + 1..];
    var piece := if ws[i] == [] then [] else CapWord(ws[i]) + " ";
    var tail := ws[i..];
    assert tail[0] == ws[i] && tail[1..] == rest;
    assert Built(tail) == piece + Built(rest);
    AppendAssoc(before, piece, Built(rest));
  }

  lemma {:induction false} WordsAreWords(s: string)
    ensures forall w :: w in Words(s) ==> IsWord(w) && forall c :: c in w ==> c in s
    decreases |s|
  {
    if s == [] {
    } else if IsSpace(s[0]) {
      WordsAreWords(s[1..]);
    } else {
      var n := RunLength(s);
      WordsAreWords(s[n..]);
      assert Words(s) == [s[..n]] + Words(s[n..]);
      forall w | w in Words(s) ensures IsWord(w) && forall c :: c in w ==> c in s {
        if w == s[..n] {
          assert w[0] == s[0];
        }
      }
    }
  }

  lemma CapCharKeepsClass(c: char)
    ensures IsSpace(UpperChar(c)) == IsSpace(c) && IsSpace(LowerChar(c)) == IsSpace(c)
    ensures IsTrimmable(UpperChar(c)) == IsTrimmable(c) && IsTrimmable(LowerChar(c)) == IsTrimmable(c)
    ensures (UpperChar(c) == '"') == (c == '"') && (LowerChar(c) == '"') == (c == '"')
  {
  }

  lemma CapWordKeepsClass(w: string)
    ensures IsWord(w) ==> IsWord(CapWord(w))
    ensures IsSolid(w) ==> IsSolid(CapWord(w))
    ensures '"' !in w ==> '"' !in CapWord(w)
  {
    var r := CapWord(w);
    CapWordChars(w);
    forall i | 0 <= i < |w|
      ensures IsSpace(r[i]) == IsSpace(w[i]) && IsTrimmable(r[i]) == IsTrimmable(w[i])
      ensures (r[i] == '"') == (w[i] == '"')
    {
      CapCharKeepsClass(w[i]);
    }
  }

  /** A string in which every \s character is a plain space followed by a non-space. */
  predicate SingleSpaced(t: string)
  {
    forall i :: 0 <= i < |t| && IsSpace(t[i]) ==> t[i] == ' ' && (i + 1 < |t| ==> !IsSpace(t[i + 1]))
  }

  lemma {:induction false} BuiltShape(ws: seq<string>)
    requires forall w :: w in ws ==> IsWord(w)
    ensures SingleSpaced(Built(ws))
    ensures Built(ws) != [] ==> !IsSpace(Built(ws)[0])
  {
    if ws != [] {
      BuiltShape(ws[1..]);
      var c := CapWord(ws[0]);
      CapWordKeepsClass(ws[0]);
      var rest := Built(ws[1..]);
      assert Built(ws) == c + [' '] + rest;
      var t := Built(ws);
      assert forall k :: 0 <= k < |c| ==> t[k] == c[k];
      forall i | 0 <= i < |t| && IsSpace(t[i])
        ensures t[i] == ' ' && (i + 1 < |t| ==> !IsSpace(t[i + 1]))
      {
        if i < |c| {
        } else if i == |c| {
          assert i + 1 < |t| ==> t[i + 1] == rest[0];
        } else {
          assert t[i] == rest[i - |c| - 1];
          assert i + 1 < |t| ==> t[i + 1] == rest[i - |c|];
        }
      }
    }
  }

  lemma {:induction false} BuiltQuoteFree(ws: seq<string>)
    requires forall w :: w in ws ==> '"' !in w
    ensures '"' !in Built(ws)
  {
    if ws != [] {
      BuiltQuoteFree(ws[1..]);
      CapWordKeepsClass(ws[0]);
    }
  }

  lemma SliceKeepsShape(t: string, i: nat, j: nat)
    requires i <= j <= |t|
    ensures SingleSpaced(t) ==> SingleSpaced(t[i..j])
    ensures '"' !in t ==> '"' !in t[i..j]
  {
    if '"' in t[i..j] {
      var k :| 0 <= k < j - i && t[i..j][k] == '"';
      assert t[i + k] == '"';
    }
  }

  // ---------------------------------------------------------------------
  // What capitalizeWords promises

  /** The result never contains a double quote. */
  lemma CapitalizedHasNoQuotes(s: string)
    ensures '"' !in Capitalized(s)
  {
    if s != [] {
      var ws := Words(RemoveQuotes(s));
      RemoveQuotesChars(s);
      WordsAreWords(RemoveQuotes(s));
      BuiltQuoteFree(ws);
      TrimSlice(Built(ws));
      var i, j :| 0 <= i <= j <= |Built(ws)| && Trim(Built(ws)) == Built(ws)[i..j];
      SliceKeepsShape(Built(ws), i, j);
    }
  }

  /**
   * The result has no leading or trailing whitespace, and inside it every
   * whitespace character is a single plain space between two words.
   */
  lemma CapitalizedSpacing(s: string)
    ensures var r := Capitalized(s);
      r != [] ==> !IsTrimmable(r[0]) && !IsTrimmable(r[|r| - 1])
    ensures s != [] ==> SingleSpaced(Capitalized(s))
  {
    if s != [] {
      var ws := Words(RemoveQuotes(s));
      RemoveQuotesChars(s);
      WordsAreWords(RemoveQuotes(s));
      BuiltShape(ws);
      TrimSlice(Built(ws));
      var i, j :| 0 <= i <= j <= |Built(ws)| && Trim(Built(ws)) == Built(ws)[i..j];
      SliceKeepsShape(Built(ws), i, j);
    }
  }

  lemma {:induction false} RunLengthOfWord(w: string, rest: string)
    requires IsWord(w)
    requires rest == [] || IsSpace(rest[0])
    ensures RunLength(w + rest) == |w|
  {
    if |w| > 1 {
      assert (w + rest)[1..] == w[1..] + rest;
      RunLengthOfWord(w[1..], rest);
    } else {
      assert (w + rest)[1..] == rest;
    }
  }

  /** Splitting words joined by single spaces gives the words back. */
  lemma {:induction false} WordsOfJoin(cs: seq<string>)
    requires forall w :: w in cs ==> IsWord(w)
    ensures Words(Join(cs)) == cs
  {
    if cs == [] {
    } else if |cs| == 1 {
      RunLengthOfWord(cs[0], []);
      assert cs[0] + [] == cs[0];
      assert Join(cs)[..|cs[0]|] == cs[0];
      assert Join(cs)[|cs[0]|..] == [];
    } else {
      var j := Join(cs[1..]);
      var t := Join(cs);
      assert t == cs[0] + (" " + j);
      RunLengthOfWord(cs[0], " " + j);
      assert t[..|cs[0]|] == cs[0];
      assert t[|cs[0]|..] == " " + j;
      assert Words(" " + j) == Words(j) by {
        assert (" " + j)[1..] == j;
      }
      WordsOfJoin(cs[1..]);
    }
  }

  lemma {:induction false} RemoveQuotesOfQuoteFree(s: string)
    requires '"' !in s
    ensures RemoveQuotes(s) == s
  {
    if s != [] {
      assert s == [s[0]] + s[1..];
      RemoveQuotesOfQuoteFree(s[1..]);
    }
  }

  lemma {:induction false} JoinShape(cs: seq<string>)
    requires forall w :: w in cs ==> IsSolid(w)
    ensures cs != [] ==> Join(cs) != [] && !IsTrimmable(Join(cs)[0]) && !IsTrimmable(Join(cs)[|Join(cs)| - 1])
    ensures (forall w :: w in cs ==> '"' !in w) ==> '"' !in Join(cs)
  {
    if cs != [] {
      assert cs[0] in cs;
    }
    if |cs| > 1 {
      assert forall w :: w in cs[1..] ==> w in cs;
      JoinShape(cs[1..]);
      var j := Join(cs[1..]);
      assert Join(cs) == cs[0] + " " + j;
      assert Join(cs)[0] == cs[0][0];
      assert Join(cs)[|Join(cs)| - 1] == j[|j| - 1];
    }
  }

  /** Capitalising solid words and joining them is what the builder leaves after trimming. */
  lemma {:induction false} TrimBuiltIsJoin(ws: seq<string>)
    requires forall w :: w in ws ==> IsSolid(w)
    ensures Trim(Built(ws)) == Join(MapCap(ws))
  {
    var cs := MapCap(ws);
    forall w | w in cs ensures IsSolid(w) {
      var k :| 0 <= k < |cs| && cs[k] == w;
      CapWordKeepsClass(ws[k]);
    }
    BuiltIsJoin(ws);
    if ws != [] {
      var j := Join(cs);
      JoinShape(cs);
      assert Built(ws) == j + " ";
      assert TrimStart(j + " ") == j + " ";
      assert (j + " ")[..|j + " "| - 1] == j;
      assert TrimEnd(j + " ") == TrimEnd(j);
      assert TrimEnd(j) == j;
    }
  }

  lemma {:induction false} BuiltIsJoin(ws: seq<string>)
    requires forall w :: w in ws ==> w != []
    ensures ws != [] ==> Built(ws) == Join(MapCap(ws)) + " "
  {
    if ws != [] {
      assert ws[0] in ws;
    }
    if |ws| > 1 {
      assert forall w :: w in ws[1..] ==> w in ws;
      BuiltIsJoin(ws[1..]);
      assert MapCap(ws)[1..] == MapCap(ws[1..]);
    }
  }

  /** Every character is either \s or not trimmable: no other control characters. */
  predicate NoControl(s: string)
  {
    forall i :: 0 <= i < |s| ==> IsSpace(s[i]) || !IsTrimmable(s[i])
  }

  lemma WordsOfNoControlAreSolid(s: string)
    requires NoControl(s)
    ensures forall w :: w in Words(RemoveQuotes(s)) ==> IsSolid(w)
  {
    WordsAreWords(RemoveQuotes(s));
    RemoveQuotesChars(s);
    forall w | w in Words(RemoveQuotes(s)) ensures IsSolid(w) {
      forall i | 0 <= i < |w| ensures !IsTrimmable(w[i]) {
        assert w[i] in w;
        assert w[i] in s;
      }
    }
  }

  /**
   * Without control characters, the result is the capitalised words of the
   * quote-stripped input joined by single spaces: the word count is kept and
   * each word is rewritten by CapWord.
   */
  lemma CapitalizedIsJoinedWords(s: string)
    requires NoControl(s)
    ensures Capitalized(s) == Join(MapCap(Words(RemoveQuotes(s))))
    ensures Words(Capitalized(s)) == MapCap(Words(RemoveQuotes(s)))
  {
    var ws := Words(RemoveQuotes(s));
    WordsOfNoControlAreSolid(s);
    if s != [] {
      TrimBuiltIsJoin(ws);
    } else {
      assert RemoveQuotes(s) == [];
    }
    var cs := MapCap(ws);
    forall w | w in cs ensures IsWord(w) {
      var k :| 0 <= k < |cs| && cs[k] == w;
      CapWordKeepsClass(ws[k]);
    }
    WordsOfJoin(cs);
  }

  lemma CapWordIdempotent(w: string)
    ensures CapWord(CapWord(w)) == CapWord(w)
  {
    var c := CapWord(w);
    CapWordChars(w);
    CapWordChars(c);
    forall i | 0 <= i < |w| ensures CapWord(c)[i] == c[i] {
      CaseIdempotent(w[i]);
    }
  }

  lemma CaseIdempotent(ch: char)
    ensures UpperChar(UpperChar(ch)) == UpperChar(ch) && LowerChar(LowerChar(ch)) == LowerChar(ch)
  {
  }

  lemma SolidIsWord(w: string)
    requires IsSolid(w)
    ensures IsWord(w)
  {
    forall i | 0 <= i < |w| ensures !IsSpace(w[i]) {
      assert !IsTrimmable(w[i]);
    }
  }

  /** Capitalised solid, quote-free words are a fixed point once joined. */
  lemma {:induction false} JoinedCapitalsAreFixed(ws: seq<string>)
    requires forall w :: w in ws ==> IsSolid(w) && '"' !in w
    ensures Capitalized(Join(MapCap(ws))) == Join(MapCap(ws))
  {
    var cs := MapCap(ws);
    forall w | w in cs ensures IsSolid(w) && IsWord(w) && '"' !in w {
      var k :| 0 <= k < |cs| && cs[k] == w;
      assert ws[k] in ws;
      CapWordKeepsClass(ws[k]);
      SolidIsWord(w);
    }
    var c := Join(cs);
    if c != [] {
      JoinShape(cs);
      RemoveQuotesOfQuoteFree(c);
      WordsOfJoin(cs);
      TrimBuiltIsJoin(cs);
      forall i | 0 <= i < |cs| ensures MapCap(cs)[i] == cs[i] {
        CapWordIdempotent(ws[i]);
      }
      assert MapCap(cs) == cs;
      assert Capitalized(c) == Trim(Built(Words(RemoveQuotes(c))));
    }
  }

  /** Without control characters, applying the normaliser twice changes nothing more. */
  lemma CapitalizedIdempotent(s: string)
    requires NoControl(s)
    ensures Capitalized(Capitalized(s)) == Capitalized(s)
  {
    var ws := Words(RemoveQuotes(s));
    CapitalizedIsJoinedWords(s);
    WordsOfNoControlAreSolid(s);
    WordsAreWords(RemoveQuotes(s));
    RemoveQuotesChars(s);
    assert forall w :: w in ws ==> IsSolid(w) && '"' !in w;
    JoinedCapitalsAreFixed(ws);
  }

  lemma {:induction false} RemoveQuotesAppend(a: string, b: string)
    ensures RemoveQuotes(a + b) == RemoveQuotes(a) + RemoveQuotes(b)
  {
    if a != [] {
      assert (a + b)[1..] == a[1..] + b;
      RemoveQuotesAppend(a[1..], b);
    } else {
      assert a + b == b;
    }
  }

  lemma ExampleQuotes()
    ensures RemoveQuotes("\"aBC\" d") == "aBC d"
  {
    ExampleSplit();
    RemoveQuotesAppend("\"", "aBC");
    RemoveQuotesAppend("\"aBC", "\" d");
    ExampleQuotePieces();
  }

  lemma ExampleSplit()
    ensures "\"aBC\" d" == ("\"" + "aBC") + "\" d"
    ensures "aBC" + " d" == "aBC d"
  {
  }

  lemma ExampleQuotePieces()
    ensures RemoveQuotes("\"") == []
    ensures RemoveQuotes("aBC") == "aBC"
    ensures RemoveQuotes("\" d") == " d"
  {
  }

  lemma ExampleWords()
    ensures Words("aBC d") == ["aBC", "d"]
  {
    assert Join(["aBC", "d"]) == "aBC d";
    WordsOfJoin(["aBC", "d"]);
  }

  lemma ExampleBuilt()
    ensures Trim(Built(["aBC", "d"])) == "Abc D"
  {
    assert Built(["aBC", "d"]) == "Abc D ";
    assert TrimStart("Abc D ") == "Abc D ";
    assert TrimEnd("Abc D ") == TrimEnd("Abc D");
  }

  /**
   * A worked example: the quotes go, a short word is upper-cased whole and a
   * longer one gets a capital initial and a lower-case rest.
   */
  lemma CapitalizedExample()
    ensures Capitalized("\"aBC\" d") == "Abc D"
  {
    ExampleQuotes();
    ExampleWords();
    ExampleBuilt();
  }

  /** The example of the source's documentation: quotes gone, a short word upper-cased, the rest kept. */
  lemma DocumentedExample()
    ensures Capitalized("\"Kombo \"\"A\"\"\" - Nkoaranga") == "Kombo A - Nkoaranga"
  {
    var s := "\"Kombo \"\"A\"\"\" - Nkoaranga";
    assert NoControl(s);
    CapitalizedIsJoinedWords(s);
    DocumentedQuotes();
    DocumentedWords();
    DocumentedCaps();
  }

  lemma DocumentedQuotes()
    ensures RemoveQuotes("\"Kombo \"\"A\"\"\" - Nkoaranga") == "Kombo A - Nkoaranga"
  {
    DocumentedSplit();
    DocumentedPiece1();
    DocumentedPiece2();
    DocumentedPiece3();
    RemoveQuotesOfThree("\"Kombo ", "\"\"A", "\"\"\" - Nkoaranga");
  }

  /** The quote removal of three pieces is the removal of each, concatenated. */
  lemma RemoveQuotesOfThree(a: string, b: string, c: string)
    ensures RemoveQuotes(a + b + c) == RemoveQuotes(a) + RemoveQuotes(b) + RemoveQuotes(c)
  {
    RemoveQuotesAppend(a, b);
    RemoveQuotesAppend(a + b, c);
  }

  lemma DocumentedSplit()
    ensures "\"Kombo \"\"A\"\"\" - Nkoaranga" == "\"Kombo " + "\"\"A" + "\"\"\" - Nkoaranga"
    ensures "Kombo " + "A" + " - Nkoaranga" == "Kombo A - Nkoaranga"
  {
  }

  lemma DocumentedPiece1()
    ensures RemoveQuotes("\"Kombo ") == "Kombo "
  {
    assert "\"Kombo "[1..] == "Kombo ";
    RemoveQuotesOfQuoteFree("Kombo ");
  }

  lemma DocumentedPiece2()
    ensures RemoveQuotes("\"\"A") == "A"
  {
    assert "\"\"A"[1..] == "\"A";
    assert "\"A"[1..] == "A";
    RemoveQuotesOfQuoteFree("A");
  }

  lemma DocumentedPiece3()
    ensures RemoveQuotes("\"\"\" - Nkoaranga") == " - Nkoaranga"
  {
    assert "\"\"\" - Nkoaranga" == "\"\"\"" + " - Nkoaranga";
    DropQuoteRun(" - Nkoaranga");
    DocumentedTail();
  }

  lemma DocumentedTail()
    ensures RemoveQuotes(" - Nkoaranga") == " - Nkoaranga"
  {
    RemoveQuotesOfQuoteFree(" - Nkoaranga");
  }

  /** A run of three quotes in front is dropped whole. */
  lemma DropQuoteRun(t: string)
    ensures RemoveQuotes("\"\"\"" + t) == RemoveQuotes(t)
  {
    var s := "\"\"\"" + t;
    assert s[1..] == "\"\"" + t;
    assert s[1..][1..] == "\"" + t;
    assert s[1..][1..][1..] == t;
    assert RemoveQuotes(s) == RemoveQuotes(s[1..]);
    assert RemoveQuotes(s[1..]) == RemoveQuotes(s[1..][1..]);
  }

  lemma DocumentedWords()
    ensures Words("Kombo A - Nkoaranga") == ["Kombo", "A", "-", "Nkoaranga"]
  {
    var ws := ["Kombo", "A", "-", "Nkoaranga"];
    assert Join(ws[3..]) == "Nkoaranga";
    assert Join(ws[2..]) == "- Nkoaranga";
    assert Join(ws[1..]) == "A - Nkoaranga";
    assert Join(ws) == "Kombo A - Nkoaranga";
    WordsOfJoin(ws);
  }

  /** ToLower leaves a string without upper-case letters as it is. */
  lemma LowerOfLower(s: string)
    requires forall i :: 0 <= i < |s| ==> !('A' <= s[i] <= 'Z')
    ensures ToLower(s) == s
  {
    ToLowerChars(s);
  }

  lemma DocumentedCaps()
    ensures MapCap(["Kombo", "A", "-", "Nkoaranga"]) == ["Kombo", "A", "-", "Nkoaranga"]
    ensures Join(["Kombo", "A", "-", "Nkoaranga"]) == "Kombo A - Nkoaranga"
  {
    DocumentedLongWords();
    DocumentedShortWords();
    FixedFour("Kombo", "A", "-", "Nkoaranga");
    DocumentedJoin();
  }

  lemma DocumentedShortWords()
    ensures CapWord("A") == "A" && CapWord("-") == "-"
  {
  }

  /** Four words each fixed by CapWord are fixed together. */
  lemma FixedFour(a: string, b: string, c: string, d: string)
    requires CapWord(a) == a && CapWord(b) == b && CapWord(c) == c && CapWord(d) == d
    ensures MapCap([a, b, c, d]) == [a, b, c, d]
  {
  }

  lemma DocumentedJoin()
    ensures Join(["Kombo", "A", "-", "Nkoaranga"]) == "Kombo A - Nkoaranga"
  {
    var ws := ["Kombo", "A", "-", "Nkoaranga"];
    assert Join(ws[3..]) == "Nkoaranga";
    assert Join(ws[2..]) == "- Nkoaranga";
    assert Join(ws[1..]) == "A - Nkoaranga";
  }

  lemma DocumentedLongWords()
    ensures CapWord("Kombo") == "Kombo" && CapWord("Nkoaranga") == "Nkoaranga"
  {
    DocumentedKombo();
    DocumentedNkoaranga();
  }

  lemma DocumentedKombo()
    ensures CapWord("Kombo") == "Kombo"
  {
    assert "Kombo"[1..] == "ombo";
    LowerOfLower("ombo");
  }

  lemma DocumentedNkoaranga()
    ensures CapWord("Nkoaranga") == "Nkoaranga"
  {
    assert "Nkoaranga"[1..] == "koaranga";
    LowerOfLower("koaranga");
  }

  /**
   * A control character that String.trim removes but \s does not match
   * breaks idempotence: the first pass counts it as part of a word, the
   * trim then drops it, and the second pass sees a different word.
   */
  lemma ControlCharacterBreaksIdempotence()
    ensures Capitalized("\U{1}ab") == "ab"
    ensures Capitalized("ab") == "AB"
  {
    ControlFirstPass();
    ControlSecondPass();
  }

  lemma ControlFirstPass()
    ensures Capitalized("\U{1}ab") == "ab"
  {
    var w := "\U{1}ab";
    RemoveQuotesOfQuoteFree(w);
    assert Join([w]) == w;
    WordsOfJoin([w]);
    assert Built([w]) == w + " ";
    assert TrimStart(w + " ") == TrimStart("ab ");
    assert TrimStart("ab ") == "ab ";
    assert TrimEnd("ab ") == TrimEnd("ab");
  }

  lemma ControlSecondPass()
    ensures Capitalized("ab") == "AB"
  {
    RemoveQuotesOfQuoteFree("ab");
    assert Join(["ab"]) == "ab";
    WordsOfJoin(["ab"]);
    assert Built(["ab"]) == "AB ";
    assert TrimStart("AB ") == "AB ";
    assert TrimEnd("AB ") == TrimEnd("AB");
  }
}
