/** Which property names are sensitive: a run of a key's words that spells one of the terms. */
module KeyWords {
  import opened Numerals

  /** The longest run of words that is joined. */
  const MAX_RUN_WORDS: nat := 4

  predicate IsUpper(c: char) {
    'A' <= c <= 'Z'
  }

  predicate IsLower(c: char) {
    'a' <= c <= 'z'
  }

  predicate IsWordChar(c: char) {
    IsUpper(c) || IsLower(c) || IsDigit(c)
  }

  /** Lower case of an ASCII letter or digit. */
  function LowerAscii(c: char): char {
    if IsUpper(c) then (c as int + 32) as char else c
  }

  /**
   * A new word starts at `i`: after a hump (`userEmail`), at the last capital of
   * an acronym that a word follows (`APIKey`), or at a digit after a letter.
   */
  predicate WordStarts(key: string, i: nat)
    requires 0 < i < |key|
  {
    || ((IsLower(key[i - 1]) || IsDigit(key[i - 1])) && IsUpper(key[i]))
    || (IsUpper(key[i - 1]) && IsUpper(key[i]) && i + 1 < |key| && IsLower(key[i + 1]))
    || ((IsUpper(key[i - 1]) || IsLower(key[i - 1])) && IsDigit(key[i]))
  }

  /** The words of the first `n` characters, the last of which may be empty: nothing since the last cut. */
  function WordsTo(key: string, n: nat): (words: seq<string>)
    requires n <= |key|
    ensures words != []
  {
    if n == 0 then [""]
    else
      var before, c := WordsTo(key, n - 1), key[n - 1];
      var last := before[|before| - 1];
      if !IsWordChar(c) then before + [""]
      else if n > 1 && WordStarts(key, n - 1) then before + [[LowerAscii(c)]]
      else before[..|before| - 1] + [last + [LowerAscii(c)]]
  }

  function NonEmpty(words: seq<string>): seq<string> {
    if words == [] then []
    else
      var init, last := NonEmpty(words[..|words| - 1]), words[|words| - 1];
      if last == "" then init else init + [last]
  }

  /** The words of a key, in lower case. */
  function Words(key: string): seq<string> {
    NonEmpty(WordsTo(key, |key|))
  }

  function Concat(words: seq<string>): string {
    if words == [] then "" else Concat(words[..|words| - 1]) + words[|words| - 1]
  }

  /** What is left of a term once separators are removed. */
  function Normalise(term: string): string {
    if term == "" then ""
    else
      var init, c := Normalise(term[..|term| - 1]), term[|term| - 1];
      if IsWordChar(c) then init + [LowerAscii(c)] else init
  }

  lemma {:induction false} ConcatNonEmpty(words: seq<string>)
    ensures Concat(NonEmpty(words)) == Concat(words)
  {
    if words != [] {
      ConcatNonEmpty(words[..|words| - 1]);
    }
  }

  lemma ConcatSnoc(words: seq<string>, last: string)
    ensures Concat(words + [last]) == Concat(words) + last
  {
    assert (words + [last])[..|words|] == words;
  }

  lemma {:induction false} WordsPartition(key: string, n: nat)
    requires n <= |key|
    ensures Concat(WordsTo(key, n)) == Normalise(key[..n])
  {
    hide WordStarts, IsWordChar, LowerAscii;
    if n == 0 {
      assert [""][..0] == [];
    } else {
      var before, c := WordsTo(key, n - 1), key[n - 1];
      var init, last := before[..|before| - 1], before[|before| - 1];
      WordsPartition(key, n - 1);
      assert key[..n][..n - 1] == key[..n - 1];
      ConcatSnoc(before, "");
      ConcatSnoc(before, [LowerAscii(c)]);
      ConcatSnoc(init, last + [LowerAscii(c)]);
    }
  }

  /** The words of a key, joined, are the key without its separators: splitting loses and adds nothing. */
  lemma WordsSpellTheKey(key: string)
    ensures Concat(Words(key)) == Normalise(key)
  {
    ConcatNonEmpty(WordsTo(key, |key|));
    WordsPartition(key, |key|);
    assert key[..|key|] == key;
  }

  // ---------------------------------------------------------------------------
  // Runs
  // ---------------------------------------------------------------------------

  /** The text is `length` words from `start` on, joined. */
  ghost predicate Spells(words: seq<string>, start: nat, length: nat, text: string) {
    1 <= length <= MAX_RUN_WORDS && start + length <= |words| && text == Concat(words[start..start + length])
  }

  ghost predicate IsRun(words: seq<string>, text: string) {
    exists start: nat, length: nat :: Spells(words, start, length, text)
  }

  /** The runs that start before `start`, and those at `start` of up to `length` words. */
  ghost predicate RunsSoFar(words: seq<string>, start: nat, length: nat, runs: seq<string>) {
    forall text :: text in runs <==>
      exists s: nat, l: nat :: Spells(words, s, l, text) && (s < start || (s == start && l <= length))
  }

  method KeyRuns(key: string) returns (runs: seq<string>)
    ensures forall text :: text in runs <==> IsRun(Words(key), text)
  {
    hide Words, Concat;
    var words := Words(key);
    runs := [];
    var start := 0;
    assert forall l: nat, text :: Spells(words, 0, l, text) ==> l > 0;
    while start < |words|
      invariant start <= |words|
      invariant RunsSoFar(words, start, 0, runs)
    {
      var run := "";
      var length := 0;
      RunOfNone(words, start);
      while length < MAX_RUN_WORDS && start + length < |words|
        invariant length <= MAX_RUN_WORDS && start + length <= |words|
        invariant run == Concat(words[start..start + length])
        invariant RunsSoFar(words, start, length, runs)
      {
        RunOneMore(words, start, length);
        RunsOneMore(words, start, length, runs, run + words[start + length]);
        run := run + words[start + length];
        runs := runs + [run];
        length := length + 1;
      }
      NextStart(words, start, length, runs);
      start := start + 1;
    }
    AllRuns(words, runs);
  }

  lemma AllRuns(words: seq<string>, runs: seq<string>)
    requires RunsSoFar(words, |words|, 0, runs)
    ensures forall text :: text in runs <==> IsRun(words, text)
  {
    hide Concat;
  }

  lemma RunOfNone(words: seq<string>, start: nat)
    requires start <= |words|
    ensures Concat(words[start..start + 0]) == ""
  {
  }

  lemma RunOneMore(words: seq<string>, start: nat, length: nat)
    requires start + length < |words|
    ensures Concat(words[start..start + length]) + words[start + length] == Concat(words[start..start + length + 1])
  {
    assert words[start..start + length + 1] == words[start..start + length] + [words[start + length]];
    ConcatSnoc(words[start..start + length], words[start + length]);
  }

  lemma RunsOneMore(words: seq<string>, start: nat, length: nat, runs: seq<string>, run: string)
    requires RunsSoFar(words, start, length, runs) && Spells(words, start, length + 1, run)
    ensures RunsSoFar(words, start, length + 1, runs + [run])
  {
    hide Concat;
    forall text
      ensures text in runs + [run] <==>
        exists s: nat, l: nat :: Spells(words, s, l, text) && (s < start || (s == start && l <= length + 1))
    {
      if text in runs + [run] && text !in runs {
        assert Spells(words, start, length + 1, text);
      }
    }
  }

  lemma NextStart(words: seq<string>, start: nat, length: nat, runs: seq<string>)
    requires RunsSoFar(words, start, length, runs)
    requires length == MAX_RUN_WORDS || start + length == |words|
    ensures RunsSoFar(words, start + 1, 0, runs)
  {
    hide Concat;
  }
}

module KeyMatcher {
  import opened KeyWords

  const MAX_CACHED_KEYS: nat := 4_096

  const DEFAULT_SENSITIVE_KEYS: seq<string> := [
    "password", "passwd", "pwd", "passphrase", "secret", "token", "apikey", "authorization", "cookie", "sessionid",
    "privatekey", "credentials", "otp", "email", "phone", "ssn", "socialsecuritynumber", "nationalid",
    "passportnumber", "dob", "dateofbirth", "birthdate", "firstname", "lastname", "fullname", "givenname",
    "familyname", "surname", "streetaddress", "postalcode", "postcode", "zipcode", "creditcard", "cardnumber",
    "cvv", "cvc", "iban"]

  /** Some run of the key's words is one of the terms. */
  ghost predicate Sensitive(terms: set<string>, key: string) {
    exists text :: text in terms && IsRun(Words(key), text)
  }

  ghost function Extras(extraKeys: seq<string>): set<string> {
    set extra | extra in extraKeys && Normalise(extra) != "" :: Normalise(extra)
  }

  ghost function TermsOf(extraKeys: seq<string>): set<string> {
    (set term | term in DEFAULT_SENSITIVE_KEYS) + Extras(extraKeys)
  }

  lemma ExtrasOneMore(extraKeys: seq<string>, extra: string)
    ensures Extras(extraKeys + [extra]) == Extras(extraKeys) + if Normalise(extra) != "" then {Normalise(extra)} else {}
  {
    hide Normalise;
    var more := extraKeys + [extra];
    assert forall e :: e in more <==> e in extraKeys || e == extra;
  }

  method BuildTerms(extraKeys: seq<string>) returns (all: set<string>)
    ensures all == TermsOf(extraKeys)
  {
    hide Normalise, Extras;
    all := set term | term in DEFAULT_SENSITIVE_KEYS;
    ghost var defaults := all;
    assert Extras(extraKeys[..0]) == {} by { NoExtras(extraKeys[..0]); }
    for i := 0 to |extraKeys|
      invariant all == defaults + Extras(extraKeys[..i])
    {
      assert extraKeys[..i + 1] == extraKeys[..i] + [extraKeys[i]];
      ExtrasOneMore(extraKeys[..i], extraKeys[i]);
      var normalised := Normalise(extraKeys[i]);
      if |normalised| > 0 {
        all := all + {normalised};
      }
    }
    assert extraKeys[..|extraKeys|] == extraKeys;
  }

  lemma NoExtras(none: seq<string>)
    requires none == []
    ensures Extras(none) == {}
  {
  }

  class SensitiveKeyMatcher {
    const terms: set<string>
    var cache: map<string, bool>

    /** What is remembered is right, and there is no more of it than the cap. */
    ghost predicate Valid()
      reads this
    {
      && |cache| <= MAX_CACHED_KEYS
      && forall key :: key in cache ==> cache[key] == Sensitive(terms, key)
    }

    constructor (extraKeys: seq<string>)
      ensures Valid() && terms == TermsOf(extraKeys)
    {
      var all := BuildTerms(extraKeys);
      terms := all;
      cache := map[];
    }

    method IsSensitiveKey(key: string) returns (sensitive: bool)
      requires Valid()
      modifies this`cache
      ensures Valid()
      ensures sensitive == Sensitive(terms, key)
    {
      hide Sensitive;
      if key in cache {
        return cache[key];
      }
      sensitive := SomeRunIn(terms, key);
      if |cache| >= MAX_CACHED_KEYS {
        cache := map[];
      }
      ghost var before := cache;
      cache := cache[key := sensitive];
      assert cache.Keys == before.Keys + {key};
    }
  }

  method SomeRunIn(terms: set<string>, key: string) returns (found: bool)
    ensures found == Sensitive(terms, key)
  {
    hide IsRun, Words;
    var runs := KeyRuns(key);
    for i := 0 to |runs|
      invariant forall k :: 0 <= k < i ==> runs[k] !in terms
    {
      if runs[i] in terms {
        assert runs[i] in runs && IsRun(Words(key), runs[i]);
        return true;
      }
    }
    return false;
  }

  ghost predicate NoneEmpty(words: seq<string>) {
    forall k :: 0 <= k < |words| ==> words[k] != ""
  }

  lemma {:induction false} WordsAreNotEmpty(words: seq<string>)
    ensures NoneEmpty(NonEmpty(words))
  {
    if words != [] {
      WordsAreNotEmpty(words[..|words| - 1]);
    }
  }

  lemma {:induction false} ConcatSplits(a: seq<string>, b: seq<string>)
    ensures Concat(a + b) == Concat(a) + Concat(b)
  {
    if b == [] {
      assert a + b == a && Concat(a) + "" == Concat(a);
    } else {
      var init, last := b[..|b| - 1], b[|b| - 1];
      ConcatSplits(a, init);
      assert a + b == (a + init) + [last];
      ConcatSnoc(a + init, last);
    }
  }

  lemma {:induction false} AtLeastOneEach(words: seq<string>)
    requires NoneEmpty(words)
    ensures |Concat(words)| >= |words|
  {
    if words != [] {
      AtLeastOneEach(words[..|words| - 1]);
    }
  }

  lemma RunIsShorter(words: seq<string>, start: nat, length: nat)
    requires NoneEmpty(words) && start + length <= |words| && length < |words|
    ensures |Concat(words[start..start + length])| < |Concat(words)|
  {
    hide Concat;
    var a, b, c := words[..start], words[start..start + length], words[start + length..];
    assert words == a + b + c;
    ConcatSplits(a + b, c);
    ConcatSplits(a, b);
    AtLeastOneEach(a);
    AtLeastOneEach(c);
  }

  /**
   * A term written as a key of its own, with whatever separators and humps,
   * catches that key exactly when the key has no more than four words.
   */
  lemma ConfiguredKeyIsCaughtIff(key: string)
    requires Normalise(key) != ""
    ensures Sensitive({Normalise(key)}, key) <==> |Words(key)| <= MAX_RUN_WORDS
  {
    var words, term := Words(key), Normalise(key);
    WordsSpellTheKey(key);
    WordsAreNotEmpty(WordsTo(key, |key|));
    if |words| <= MAX_RUN_WORDS {
      assert words[0..|words|] == words;
      assert Spells(words, 0, |words|, term);
    } else {
      forall start: nat, length: nat
        ensures !Spells(words, start, length, term)
      {
        if 1 <= length <= MAX_RUN_WORDS && start + length <= |words| {
          RunIsShorter(words, start, length);
        }
      }
    }
  }
}

/** The spellings of a key: separated words and camel case come apart into the words they are made of. */
module KeySpelling {
  import opened KeyWords
  import opened KeyMatcher

  predicate IsLetters(word: string) {
    word != "" && forall i :: 0 <= i < |word| ==> 'a' <= word[i] <= 'z'
  }

  predicate IsNumber(word: string) {
    word != "" && forall i :: 0 <= i < |word| ==> '0' <= word[i] <= '9'
  }

  ghost predicate AreWords(words: seq<string>) {
    words != [] && forall k :: 0 <= k < |words| ==> IsLetters(words[k]) || IsNumber(words[k])
  }

  /** No letter of the alphabet and no digit. */
  predicate IsSeparator(c: char) {
    !('a' <= c <= 'z') && !('A' <= c <= 'Z') && !('0' <= c <= '9')
  }

  /** `x-api-key`, `address_line_2`: any one separator between the words. */
  function Separated(words: seq<string>, sep: char): string
    requires words != []
  {
    if |words| == 1 then words[0] else Separated(words[..|words| - 1], sep) + [sep] + words[|words| - 1]
  }

  /** One word of a key in camel case: with a capital, all in capitals, or a number. */
  datatype Piece = Hump(word: string) | Acronym(word: string) | Number(word: string)

  predicate IsPiece(p: Piece) {
    if p.Number? then IsNumber(p.word) else IsLetters(p.word)
  }

  /** Two acronyms or two numbers would run together, and a hump needs a small letter to show. */
  predicate MayFollow(p: Piece, q: Piece) {
    match q
    case Hump(word) => |word| >= 2
    case Acronym(_) => !p.Acronym?
    case Number(_) => !p.Number?
  }

  ghost predicate ArePieces(pieces: seq<Piece>) {
    && pieces != []
    && (forall k :: 0 <= k < |pieces| ==> IsPiece(pieces[k]))
    && forall k :: 0 < k < |pieces| ==> MayFollow(pieces[k - 1], pieces[k])
  }

  function Capitals(word: string): string
    requires IsLetters(word)
  {
    seq(|word|, i requires 0 <= i < |word| => (word[i] as int - 32) as char)
  }

  function Spelled(p: Piece): string
    requires IsPiece(p)
  {
    match p
    case Hump(word) => Capitals(word)[..1] + word[1..]
    case Acronym(word) => Capitals(word)
    case Number(word) => word
  }

  /** `userEmail`, `rawAPIKey`, `address2`: the first hump has no capital. */
  ghost function Camel(pieces: seq<Piece>): string
    requires ArePieces(pieces)
  {
    if |pieces| > 1 then Camel(pieces[..|pieces| - 1]) + Spelled(pieces[|pieces| - 1])
    else if pieces[0].Hump? then pieces[0].word
    else Spelled(pieces[0])
  }

  function WordsOf(pieces: seq<Piece>): (words: seq<string>)
    ensures |words| == |pieces|
  {
    seq(|pieces|, k requires 0 <= k < |pieces| => pieces[k].word)
  }

  function LowerText(s: string): string {
    seq(|s|, i requires 0 <= i < |s| => LowerAscii(s[i]))
  }

  /** What follows does not change how a text is cut, unless it starts with a small letter. */
  lemma {:induction false} WordsStable(key: string, more: string, n: nat)
    requires n <= |key| && (more == "" || !IsLower(more[0]))
    ensures WordsTo(key + more, n) == WordsTo(key, n)
  {
    hide IsWordChar;
    if n > 0 {
      WordsStable(key, more, n - 1);
      var all := key + more;
      assert forall i :: 0 <= i < |key| ==> all[i] == key[i];
      assert n == |key| && n < |all| ==> all[n] == more[0];
      assert n > 1 ==> WordStarts(all, n - 1) == WordStarts(key, n - 1);
    }
  }

  /** The character at `i` belongs to the word of the one before. */
  predicate Continues(key: string, i: nat)
    requires 0 < i < |key|
  {
    IsWordChar(key[i]) && !WordStarts(key, i)
  }

  lemma {:induction false} WordGoesOn(key: string, start: nat, n: nat)
    requires 0 < start <= n <= |key| && forall i :: start <= i < n ==> Continues(key, i)
    ensures var before := WordsTo(key, start);
      WordsTo(key, n) == before[..|before| - 1] + [before[|before| - 1] + LowerText(key[start..n])]
  {
    hide WordStarts, IsWordChar, LowerAscii;
    var before := WordsTo(key, start);
    var init, last := before[..|before| - 1], before[|before| - 1];
    if n == start {
      assert before == init + [last] && last + LowerText(key[start..n]) == last;
    } else {
      WordGoesOn(key, start, n - 1);
      assert Continues(key, n - 1);
      assert key[start..n] == key[start..n - 1] + [key[n - 1]];
      assert last + LowerText(key[start..n]) == last + LowerText(key[start..n - 1]) + [LowerAscii(key[n - 1])];
    }
  }

  lemma RestOfWord(key: string, n: nat, text: string, words: seq<string>)
    requires n < |key| && key[n..] == text && WordsTo(key, n + 1) == words + [[LowerAscii(text[0])]]
    requires forall i :: n < i < |key| ==> Continues(key, i)
    ensures WordsTo(key, |key|) == words + [LowerText(text)]
  {
    hide WordsTo, LowerAscii, Continues;
    WordGoesOn(key, n + 1, |key|);
    assert key[n + 1..|key|] == text[1..];
    assert [LowerAscii(text[0])] + LowerText(text[1..]) == LowerText(text);
    assert (words + [[LowerAscii(text[0])]])[..|words|] == words;
  }

  lemma FirstStep(key: string)
    requires key != "" && IsWordChar(key[0])
    ensures WordsTo(key, 1) == [] + [[LowerAscii(key[0])]]
  {
    hide IsWordChar, LowerAscii;
    assert WordsTo(key, 0) == [""];
    assert [""][..0] == [] && "" + [LowerAscii(key[0])] == [LowerAscii(key[0])];
  }

  lemma CutStep(key: string, n: nat)
    requires 0 < n < |key| && IsWordChar(key[n]) && WordStarts(key, n)
    ensures WordsTo(key, n + 1) == WordsTo(key, n) + [[LowerAscii(key[n])]]
  {
  }

  lemma SeparatorStep(key: string, n: nat)
    requires n + 1 < |key| && !IsWordChar(key[n]) && IsWordChar(key[n + 1])
    ensures WordsTo(key, n + 2) == WordsTo(key, n) + [[LowerAscii(key[n + 1])]]
  {
    assert !WordStarts(key, n + 1);
    hide IsWordChar, WordStarts, LowerAscii;
    var before := WordsTo(key, n);
    assert WordsTo(key, n + 1) == before + [""];
    assert (before + [""])[..|before|] == before && "" + [LowerAscii(key[n + 1])] == [LowerAscii(key[n + 1])];
  }

  // ---------------------------------------------------------------------------
  // Separated words
  // ---------------------------------------------------------------------------

  lemma WordContinues(before: string, word: string)
    requires IsLetters(word) || IsNumber(word)
    ensures var key := before + word; forall i :: |before| < i < |key| ==> Continues(key, i)
    ensures LowerText(word) == word && IsWordChar(word[0])
  {
    var key, n := before + word, |before|;
    forall i | n < i < |key|
      ensures Continues(key, i)
    {
      assert key[i] == word[i - n] && key[i - 1] == word[i - 1 - n];
    }
  }

  lemma OneWord(word: string)
    requires IsLetters(word) || IsNumber(word)
    ensures WordsTo(word, |word|) == [word]
  {
    hide WordsTo, WordStarts, IsWordChar, LowerAscii;
    WordContinues("", word);
    assert "" + word == word && word[0..] == word;
    FirstStep(word);
    RestOfWord(word, 0, word, []);
  }

  lemma SeparatorThenWord(before: string, sep: char, word: string)
    requires IsSeparator(sep) && (IsLetters(word) || IsNumber(word))
    ensures WordsTo(before + [sep] + word, |before + [sep] + word|) == WordsTo(before, |before|) + [word]
  {
    var key, n := before + [sep] + word, |before|;
    assert key == before + ([sep] + word);
    hide WordsTo, WordStarts, LowerAscii;
    WordsStable(before, [sep] + word, n);
    hide IsWordChar, IsLetters, IsNumber;
    WordContinues(before + [sep], word);
    assert key[n] == sep && key[n + 1] == word[0] && key[n + 1..] == word;
    SeparatorStep(key, n);
    RestOfWord(key, n + 1, word, WordsTo(before, n));
  }

  lemma {:induction false} SeparatedWords(words: seq<string>, sep: char)
    requires AreWords(words) && IsSeparator(sep)
    ensures WordsTo(Separated(words, sep), |Separated(words, sep)|) == words
  {
    hide WordsTo, IsWordChar, IsLetters, IsNumber;
    var n := |words| - 1;
    var last := words[n];
    if n == 0 {
      OneWord(last);
      assert words == [last];
    } else {
      SeparatedWords(words[..n], sep);
      SeparatorThenWord(Separated(words[..n], sep), sep, last);
      assert words[..n] + [last] == words;
    }
  }

  // ---------------------------------------------------------------------------
  // Camel case
  // ---------------------------------------------------------------------------

  /** The last character of a piece tells which it is. */
  predicate EndsAs(text: string, p: Piece) {
    && text != ""
    && var c := text[|text| - 1];
       match p
       case Hump(_) => 'a' <= c <= 'z'
       case Acronym(_) => 'A' <= c <= 'Z'
       case Number(_) => '0' <= c <= '9'
  }

  lemma SpelledIs(p: Piece)
    requires IsPiece(p)
    ensures var text := Spelled(p);
      && |text| == |p.word| > 0 && LowerText(text) == p.word && IsWordChar(text[0]) && !IsLower(text[0])
      && (p.Number? ==> IsNumber(text))
      && (p.Acronym? ==> forall i :: 0 <= i < |text| ==> 'A' <= text[i] <= 'Z')
      && (p.Hump? ==> 'A' <= text[0] <= 'Z' && forall i :: 1 <= i < |text| ==> 'a' <= text[i] <= 'z')
  {
    var text := Spelled(p);
    if !p.Number? {
      assert forall i :: 0 <= i < |text| ==> 'a' <= p.word[i] <= 'z';
    }
  }

  lemma PieceContinues(before: string, p: Piece)
    requires IsPiece(p)
    ensures var key := before + Spelled(p); forall i :: |before| < i < |key| ==> Continues(key, i)
  {
    hide Spelled;
    SpelledIs(p);
    var text := Spelled(p);
    var key, n := before + text, |before|;
    forall i | n < i < |key|
      ensures Continues(key, i)
    {
      assert key[i] == text[i - n] && key[i - 1] == text[i - 1 - n];
      assert i + 1 < |key| ==> key[i + 1] == text[i + 1 - n];
    }
  }

  lemma PieceIsCut(before: string, p: Piece, q: Piece)
    requires EndsAs(before, p) && IsPiece(q) && MayFollow(p, q)
    ensures WordStarts(before + Spelled(q), |before|)
  {
    hide Spelled;
    SpelledIs(q);
    var text := Spelled(q);
    var key, n := before + text, |before|;
    assert key[n - 1] == before[n - 1] && key[n] == text[0];
    assert |text| > 1 ==> key[n + 1] == text[1];
  }

  lemma {:induction false} CamelEnds(pieces: seq<Piece>)
    requires ArePieces(pieces)
    ensures EndsAs(Camel(pieces), pieces[|pieces| - 1])
  {
    hide Spelled;
    var n := |pieces| - 1;
    assert IsPiece(pieces[n]);
    SpelledIs(pieces[n]);
    if n > 0 {
      assert MayFollow(pieces[n - 1], pieces[n]);
    }
  }

  lemma PiecesBefore(pieces: seq<Piece>)
    requires ArePieces(pieces) && |pieces| > 1
    ensures var n := |pieces| - 1;
      && ArePieces(pieces[..n]) && IsPiece(pieces[n]) && MayFollow(pieces[n - 1], pieces[n])
      && WordsOf(pieces) == WordsOf(pieces[..n]) + [pieces[n].word]
  {
  }

  lemma FirstPiece(p: Piece)
    requires ArePieces([p])
    ensures WordsTo(Camel([p]), |Camel([p])|) == [p.word]
  {
    hide WordsTo, WordStarts, IsWordChar, LowerAscii, Spelled;
    assert IsPiece([p][0]);
    if p.Hump? {
      OneWord(p.word);
    } else {
      var text := Spelled(p);
      SpelledIs(p);
      PieceContinues("", p);
      assert "" + text == text && text[0..] == text;
      FirstStep(text);
      RestOfWord(text, 0, text, []);
    }
  }

  lemma NextPiece(before: string, p: Piece, q: Piece)
    requires EndsAs(before, p) && IsPiece(q) && MayFollow(p, q)
    ensures var key := before + Spelled(q); WordsTo(key, |key|) == WordsTo(before, |before|) + [q.word]
  {
    hide WordsTo, WordStarts, Spelled, LowerAscii, IsWordChar;
    var key, n := before + Spelled(q), |before|;
    SpelledIs(q);
    WordsStable(before, Spelled(q), n);
    PieceIsCut(before, p, q);
    PieceContinues(before, q);
    assert key[n] == Spelled(q)[0] && key[n..] == Spelled(q);
    CutStep(key, n);
    RestOfWord(key, n, Spelled(q), WordsTo(before, n));
  }

  lemma {:induction false} CamelWords(pieces: seq<Piece>)
    requires ArePieces(pieces)
    ensures WordsTo(Camel(pieces), |Camel(pieces)|) == WordsOf(pieces)
  {
    assert pieces != [];
    hide WordsTo, Spelled, ArePieces, MayFollow, IsPiece;
    if |pieces| == 1 {
      assert pieces == [pieces[0]];
      FirstPiece(pieces[0]);
      assert WordsOf(pieces) == [pieces[0].word];
    } else {
      PiecesBefore(pieces);
      var n := |pieces| - 1;
      CamelWords(pieces[..n]);
      CamelEnds(pieces[..n]);
      NextPiece(Camel(pieces[..n]), pieces[n - 1], pieces[n]);
    }
  }

  // ---------------------------------------------------------------------------
  // What is caught
  // ---------------------------------------------------------------------------

  lemma {:induction false} NoneDropped(words: seq<string>)
    requires NoneEmpty(words)
    ensures NonEmpty(words) == words
  {
    if words != [] {
      NoneDropped(words[..|words| - 1]);
      assert words == words[..|words| - 1] + [words[|words| - 1]];
    }
  }

  /** The pieces of a key in camel case come apart into their words. */
  lemma PiecesAreFound(pieces: seq<Piece>)
    requires ArePieces(pieces)
    ensures Words(Camel(pieces)) == WordsOf(pieces)
  {
    hide WordsTo, Camel, NonEmpty;
    CamelWords(pieces);
    assert forall k :: 0 <= k < |pieces| ==> IsPiece(pieces[k]);
    NoneDropped(WordsOf(pieces));
  }

  /**
   * A key is caught when up to four of its words in a row spell a term, whether
   * the words are written with a separator or in camel case.
   */
  lemma CaughtHoweverSpelled(terms: set<string>, words: seq<string>, start: nat, length: nat, sep: char)
    requires AreWords(words) && 1 <= length <= MAX_RUN_WORDS && start + length <= |words|
    requires Concat(words[start..start + length]) in terms && IsSeparator(sep)
    ensures Sensitive(terms, Separated(words, sep))
    ensures forall pieces :: ArePieces(pieces) && WordsOf(pieces) == words ==> Sensitive(terms, Camel(pieces))
  {
    assert Spells(words, start, length, Concat(words[start..start + length]));
    NoneDropped(words);
    SeparatedWords(words, sep);
    assert Words(Separated(words, sep)) == words;
    hide Words;
    forall pieces | ArePieces(pieces) && WordsOf(pieces) == words
      ensures Sensitive(terms, Camel(pieces))
    {
      PiecesAreFound(pieces);
    }
  }

  /** Five words are too many: a term configured in this spelling does not catch the very key it was written as. */
  lemma FiveWordsAreMissed(words: seq<string>, sep: char)
    requires AreWords(words) && |words| > MAX_RUN_WORDS && IsSeparator(sep)
    ensures !Sensitive({Normalise(Separated(words, sep))}, Separated(words, sep))
  {
    var key := Separated(words, sep);
    NoneDropped(words);
    SeparatedWords(words, sep);
    assert Words(key) == words;
    WordsSpellTheKey(key);
    AtLeastOneEach(words);
    assert Normalise(key) != "";
    ConfiguredKeyIsCaughtIff(key);
  }

  /** The shortest such key. */
  lemma LongTermMissesItsOwnKey()
    ensures !Sensitive({Normalise("a-b-c-d-e")}, "a-b-c-d-e")
  {
    var two := ["a", "b"];
    var three, four, five := two + ["c"], two + ["c", "d"], two + ["c", "d", "e"];
    assert two[..1] == ["a"] && three[..2] == two && four[..3] == three && five[..4] == four;
    assert Separated(two, '-') == "a-b";
    assert Separated(three, '-') == "a-b-c";
    assert Separated(four, '-') == "a-b-c-d";
    assert Separated(five, '-') == "a-b-c-d-e";
    FiveWordsAreMissed(five, '-');
  }
}
