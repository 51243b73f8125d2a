/** The supported-language table and the two ways the bot reads it: the
    name-or-code resolver of the translate command and the "Show languages"
    listing. */
module Languages {
  import opened Wrappers
  import opened Strings
  import opened Exceptions

  /** One configured language: its code (the dictionary key, e.g. "de") and its
      display name (the value, e.g. "German"). */
  datatype Language = Language(code: string, name: string)

  predicate DistinctCodes(entries: seq<Language>)
  {
    forall i, j :: 0 <= i < j < |entries| ==> entries[i].code != entries[j].code
  }

  /** The `SUPPORTED_LANGUAGES` dictionary in its enumeration order; its keys,
      being dictionary keys, are distinct. */
  type LanguageTable = entries: seq<Language> | DistinctCodes(entries)

  /** `ContainsKey` on the table: an ordinal, case-sensitive key test. */
  predicate HasCode(table: LanguageTable, code: string)
  {
    exists i | 0 <= i < |table| :: table[i].code == code
  }

  /** Display names are pairwise distinct once lower-cased. */
  predicate DistinctLowerNames(table: LanguageTable)
  {
    forall i, j :: 0 <= i < j < |table| ==> Lower(table[i].name) != Lower(table[j].name)
  }

  // ---------------------------------------------------------------------------
  // Enumerable.ToDictionary over a sequence of key/value pairs
  // ---------------------------------------------------------------------------

  predicate DistinctKeys<K(==), V>(pairs: seq<(K, V)>)
  {
    forall i, j :: 0 <= i < j < |pairs| ==> pairs[i].0 != pairs[j].0
  }

  /** Pair `j` is the first whose key repeats an earlier key. */
  predicate FirstRepeatAt<K(==), V>(pairs: seq<(K, V)>, j: int)
  {
    && 0 <= j < |pairs|
    && DistinctKeys(pairs[..j])
    && exists i :: 0 <= i < j && pairs[i].0 == pairs[j].0
  }

  /** `ToDictionary`: pairs are added in order; adding a key that is already
      present throws, reported here as the offending key. */
  function ToDictionary<K(==), V>(pairs: seq<(K, V)>): Result<map<K, V>, K>
  {
    if |pairs| == 0 then Success(map[])
    else
      var last := |pairs| - 1;
      match ToDictionary(pairs[..last])
      case Failure(k) => Failure(k)
      case Success(m) =>
        if pairs[last].0 in m then Failure(pairs[last].0)
        else Success(m[pairs[last].0 := pairs[last].1])
  }

  /** The dictionary is built exactly when the keys are distinct. */
  lemma {:induction false} ToDictionarySucceeds<K, V>(pairs: seq<(K, V)>)
    ensures ToDictionary(pairs).Success? <==> DistinctKeys(pairs)
  {
    if |pairs| > 0 {
      var last := |pairs| - 1;
      var front := pairs[..last];
      ToDictionarySucceeds(front);
      if ToDictionary(front).Success? {
        ToDictionaryContents(front);
        var m := ToDictionary(front).value;
        if pairs[last].0 in m {
          var i :| 0 <= i < last && front[i].0 == pairs[last].0;
          assert pairs[i].0 == pairs[last].0;
        } else {
          forall i, j | 0 <= i < j < |pairs|
            ensures pairs[i].0 != pairs[j].0
          {
            assert pairs[i] == front[i];
            if j < last {
              assert pairs[j] == front[j];
            } else {
              assert pairs[i].0 in m;
            }
          }
        }
      } else {
        var i, j :| 0 <= i < j < last && front[i].0 == front[j].0;
        assert pairs[i] == front[i] && pairs[j] == front[j];
      }
    }
  }

  /** A built dictionary holds every pair and no other key. */
  lemma {:induction false} ToDictionaryContents<K, V>(pairs: seq<(K, V)>)
    requires ToDictionary(pairs).Success?
    ensures forall i :: 0 <= i < |pairs| ==> pairs[i].0 in ToDictionary(pairs).value && ToDictionary(pairs).value[pairs[i].0] == pairs[i].1
    ensures ToDictionary(pairs).value.Keys == set i | 0 <= i < |pairs| :: pairs[i].0
  {
    if |pairs| > 0 {
      var last := |pairs| - 1;
      var front := pairs[..last];
      ToDictionaryContents(front);
      var m := ToDictionary(front).value;
      assert pairs[last].0 !in m;
      var m' := m[pairs[last].0 := pairs[last].1];
      assert ToDictionary(pairs).value == m';
      forall i | 0 <= i < |pairs|
        ensures pairs[i].0 in m' && m'[pairs[i].0] == pairs[i].1
      {
        if i < last {
          assert pairs[i] == front[i];
        }
      }
      assert (set i | 0 <= i < |pairs| :: pairs[i].0) == (set i | 0 <= i < last :: front[i].0) + {pairs[last].0};
    }
  }

  /** When the dictionary cannot be built, the exception names the first
      repeated key. */
  lemma {:induction false} ToDictionaryFailure<K, V>(pairs: seq<(K, V)>)
    requires ToDictionary(pairs).Failure?
    ensures exists j :: FirstRepeatAt(pairs, j) && ToDictionary(pairs).error == pairs[j].0
  {
    var last := |pairs| - 1;
    var front := pairs[..last];
    assert forall i :: 0 <= i < last ==> front[i] == pairs[i];
    if ToDictionary(front).Failure? {
      ToDictionaryFailure(front);
      var j :| FirstRepeatAt(front, j) && ToDictionary(front).error == front[j].0;
      assert front[..j] == pairs[..j];
      assert FirstRepeatAt(pairs, j);
    } else {
      ToDictionaryContents(front);
      ToDictionarySucceeds(front);
      assert pairs[last].0 in (set i | 0 <= i < last :: front[i].0);
      var i :| 0 <= i < last && front[i].0 == pairs[last].0;
      assert pairs[..last] == front;
      assert FirstRepeatAt(pairs, last);
    }
  }

  // ---------------------------------------------------------------------------
  // Reverse lookup: lower-cased display name -> lower-cased code
  // ---------------------------------------------------------------------------

  /** The (lower-cased name, lower-cased code) pair of every entry, in order. */
  function ReversePairs(table: LanguageTable): (pairs: seq<(string, string)>)
  {
    seq(|table|, i requires 0 <= i < |table| => (Lower(table[i].name), Lower(table[i].code)))
  }

  /** The reverse lookup can be built exactly when display names are distinct
      up to case. */
  lemma ReverseSucceeds(table: LanguageTable)
    ensures BuildReverse(table).Success? <==> DistinctLowerNames(table)
  {
    var pairs := ReversePairs(table);
    ToDictionarySucceeds(pairs);
    assert forall i :: 0 <= i < |table| ==> pairs[i].0 == Lower(table[i].name);
    if DistinctLowerNames(table) {
      forall i, j | 0 <= i < j < |pairs|
        ensures pairs[i].0 != pairs[j].0
      {
      }
    } else {
      var i, j :| 0 <= i < j < |table| && Lower(table[i].name) == Lower(table[j].name);
      assert pairs[i].0 == pairs[j].0;
    }
  }

  /** The reverse lookup of line 126: each language's lower-cased name
      mapped to its lower-cased code, built as a dictionary, so that two names
      equal up to case throw. */
  function BuildReverse(table: LanguageTable): Result<map<string, string>, Exception>
  {
    match ToDictionary(ReversePairs(table))
    case Success(m) => Success(m)
    case Failure(key) => Failure(DuplicateKey(key))
  }

  // ---------------------------------------------------------------------------
  // Resolving one requested language
  // ---------------------------------------------------------------------------

  /** Lines 132-143 of the bot: the lower-cased token is looked up as a
      display name first, then as a code; `None` stands for the null key. */
  function Resolve(table: LanguageTable, reverse: map<string, string>, token: string): Option<string>
  {
    var lower := Lower(token);
    if lower in reverse then Some(reverse[lower])
    else if HasCode(table, lower) then Some(lower)
    else None
  }

  /** A code the translation service may be called with: lower case, and the
      lower-cased key of some entry. */
  ghost predicate IsCanonicalCode(table: LanguageTable, code: string)
  {
    IsLowerCase(code) && exists i :: 0 <= i < |table| && Lower(table[i].code) == code
  }

  /** Some entry's display name equals `token` ignoring case. */
  ghost predicate NamesLanguage(table: LanguageTable, token: string)
  {
    exists i :: 0 <= i < |table| && Lower(table[i].name) == Lower(token)
  }

  /** The resolution order, with the lookup built from the table: a display
      name wins and yields its entry's lower-cased code; otherwise a token
      whose lower case is a key yields that lower case; otherwise nothing. Any
      resolved code is canonical. */
  lemma ResolutionOrder(table: LanguageTable, reverse: map<string, string>, token: string)
    requires BuildReverse(table) == Success(reverse)
    ensures forall i :: 0 <= i < |table| && Lower(table[i].name) == Lower(token) ==>
      Resolve(table, reverse, token) == Some(Lower(table[i].code))
    ensures !NamesLanguage(table, token) && HasCode(table, Lower(token)) ==>
      Resolve(table, reverse, token) == Some(Lower(token))
    ensures Resolve(table, reverse, token).None? <==> !NamesLanguage(table, token) && !HasCode(table, Lower(token))
    ensures Resolve(table, reverse, token).Some? ==> IsCanonicalCode(table, Resolve(table, reverse, token).value)
  {
    var pairs := ReversePairs(table);
    var lower := Lower(token);
    ToDictionaryContents(pairs);
    assert forall i :: 0 <= i < |table| ==> pairs[i].0 == Lower(table[i].name) && pairs[i].1 == Lower(table[i].code);
    if lower in reverse {
      assert lower in (set i | 0 <= i < |pairs| :: pairs[i].0);
      var i :| 0 <= i < |pairs| && pairs[i].0 == lower;
      assert reverse[lower] == Lower(table[i].code);
    } else if HasCode(table, lower) {
      var i :| 0 <= i < |table| && table[i].code == lower;
      LowerOfLowerCase(lower);
      assert Lower(table[i].code) == lower;
    }
  }

  // ---------------------------------------------------------------------------
  // "Show languages"
  // ---------------------------------------------------------------------------

  // Written in two pieces so that the verifier expands the literal's first characters.
  const FallbackMessage := "No supported languages" + " found in the configuration."
  const ListingHeader := "Supported languages:"

  /** One listing line: the language's name, then its code in parentheses. */
  function EntryLine(language: Language): string
  {
    language.name + " (" + language.code + ")"
  }

  function EntryLines(table: LanguageTable): (lines: seq<string>)
  {
    seq(|table|, i requires 0 <= i < |table| => EntryLine(table[i]))
  }

  /** `DisplaySupportedLanguagesAsync`: the text it both sends and returns.
      A null or empty table gives the fallback text, never an empty string;
      the text depends on the read-only table alone. */
  function DisplaySupportedLanguages(table: Option<LanguageTable>): (text: string)
    ensures text != ""
    ensures table.None? || |table.value| == 0 <==> text == FallbackMessage
  {
    if table.None? || |table.value| == 0 then FallbackMessage
    else
      var text := ListingHeader + "\n" + Join(EntryLines(table.value), "\n");
      assert text[0] == 'S';
      assert FallbackMessage[0] == 'N';
      text
  }

  /** A non-empty listing reads back, line by line, as the header followed by
      one `Name (code)` line per entry in table order (when no name or code
      itself holds a line break). */
  lemma {:induction false} ListingLines(table: LanguageTable)
    requires |table| > 0
    requires forall i :: 0 <= i < |table| ==> '\n' !in table[i].name && '\n' !in table[i].code
    ensures Split(DisplaySupportedLanguages(Some(table)), "\n") == [ListingHeader] + EntryLines(table)
  {
    var lines := [ListingHeader] + EntryLines(table);
    assert lines[1..] == EntryLines(table);
    assert Join(lines, "\n") == DisplaySupportedLanguages(Some(table));
    forall k | 0 <= k < |lines|
      ensures '\n' !in lines[k]
    {
      if k > 0 {
        var l := table[k - 1];
        assert lines[k] == l.name + " (" + l.code + ")";
      }
    }
    SplitJoin(lines, '\n');
  }
}
