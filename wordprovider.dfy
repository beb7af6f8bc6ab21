/** Secret words for new games: one word list file per locale, a random line of it.
    The file system is a map from path to the file's lines (each with its line
    terminator); `random.randint` is an input within its range. */
module WordProvider {
  import opened Optional
  import opened Awaitable

  /** One word list: its locale, path and declared number of lines. */
  datatype FileWord = FileWord(locale: string, filepath: string, lines: int)

  /** Why `generate` raises: no file config for the locale and no default one
      (`AttributeError` on `None`), a negative line count (`randint` raises
      `ValueError` on an empty range), or the file cannot be opened. */
  datatype Error = NoConfig | EmptyRange(lines: int) | CannotOpen(path: string)

  datatype Result<T> = Success(value: T) | Failure(error: Error)

  /** `{file.locale: file for file in files}`: a later file replaces an earlier one of
      the same locale. */
  function LocaleTable(files: seq<FileWord>): (table: map<string, FileWord>)
    ensures table.Keys == set f | f in files :: f.locale
    ensures forall l :: l in table ==> table[l] in files && table[l].locale == l
    ensures forall i :: 0 <= i < |files| && (forall j :: i < j < |files| ==> files[j].locale != files[i].locale) ==>
      table[files[i].locale] == files[i]
    decreases |files|
  {
    if files == [] then map[]
    else
      var last := files[|files| - 1];
      var init := files[..|files| - 1];
      assert files == init + [last];
      LocaleTable(init)[last.locale := last]
  }

  /** `str.isspace` for one character (Python's whitespace set). */
  predicate IsSpace(c: char) {
    || '\t' <= c <= '\r' || '\U{1C}' <= c <= ' '
    || c == '\U{85}' || c == '\U{A0}' || c == '\U{1680}' || '\U{2000}' <= c <= '\U{200A}'
    || c == '\U{2028}' || c == '\U{2029}' || c == '\U{202F}' || c == '\U{205F}' || c == '\U{3000}'
  }

  /** `str.lstrip()`: drops the longest all-whitespace prefix. */
  function StripLeft(s: string): (r: string)
    ensures |r| <= |s| && r == s[|s| - |r|..]
    ensures forall i :: 0 <= i < |s| - |r| ==> IsSpace(s[i])
    ensures r == [] || !IsSpace(r[0])
    decreases |s|
  {
    if s != [] && IsSpace(s[0]) then StripLeft(s[1..]) else s
  }

  /** `str.rstrip()`: drops the longest all-whitespace suffix. */
  function StripRight(s: string): (r: string)
    ensures |r| <= |s| && r == s[..|r|]
    ensures forall i :: |r| <= i < |s| ==> IsSpace(s[i])
    ensures r == [] || !IsSpace(r[|r| - 1])
    decreases |s|
  {
    if s != [] && IsSpace(s[|s| - 1]) then StripRight(s[..|s| - 1]) else s
  }

  predicate AllSpace(s: string) {
    forall i :: 0 <= i < |s| ==> IsSpace(s[i])
  }

  /** `str.strip()`: the input with only whitespace cut from either end, and no
      whitespace left at either end of the result. */
  function Strip(s: string): (r: string)
    ensures exists i :: 0 <= i <= |s| - |r| && r == s[i..][..|r|] && AllSpace(s[..i]) && AllSpace(s[i..][|r|..])
    ensures r == [] || (!IsSpace(r[0]) && !IsSpace(r[|r| - 1]))
  {
    var l := StripLeft(s);
    var i := |s| - |l|;
    var r := StripRight(l);
    assert l == s[i..];
    assert r == s[i..][..|r|];
    assert AllSpace(s[..i]);
    assert AllSpace(s[i..][|r|..]);
    r
  }

  /** Stripping twice changes nothing more. */
  lemma StripIdempotent(s: string)
    ensures Strip(Strip(s)) == Strip(s)
  {
    var r := Strip(s);
    assert StripLeft(r) == r;
    assert StripRight(r) == r;
  }

  class FileWordProvider {
    const words: map<string, FileWord>
    const defaultConfig: Option<FileWord>
    const defaultWord: string

    constructor(files: seq<FileWord>, defaultLocale: string := "en", defaultWord: string := "word")
      ensures words == LocaleTable(files)
      ensures defaultConfig == (if defaultLocale in words then Some(words[defaultLocale]) else None)
      ensures this.defaultWord == defaultWord
    {
      words := LocaleTable(files);
      var table := LocaleTable(files);
      defaultConfig := if defaultLocale in table then Some(table[defaultLocale]) else None;
      this.defaultWord := defaultWord;
    }

    /** `self.__words.get(locale, self.__default_config)`. */
    function ConfigFor(locale: string): (c: Option<FileWord>)
      ensures locale in words ==> c == Some(words[locale])
      ensures locale !in words ==> c == defaultConfig
    {
      if locale in words then Some(words[locale]) else defaultConfig
    }

    /** `generate`: reads the chosen file line by line and keeps the line whose index
        is `wordIdx`, stopping there; with no such line the default word stays. The
        result is stripped. `wordIdx` is `randint(0, lines)`, both ends included. */
    method Generate(fileSystem: map<string, seq<string>>, wordIdx: int, locale: string := "en") returns (r: Result<string>)
      requires ConfigFor(locale).Some? && ConfigFor(locale).value.lines >= 0 ==> 0 <= wordIdx <= ConfigFor(locale).value.lines
      ensures ConfigFor(locale).None? ==> r == Failure(NoConfig)
      ensures ConfigFor(locale).Some? && ConfigFor(locale).value.lines < 0 ==>
        r == Failure(EmptyRange(ConfigFor(locale).value.lines))
      ensures ConfigFor(locale).Some? && ConfigFor(locale).value.lines >= 0 ==>
        var path := ConfigFor(locale).value.filepath;
        if path !in fileSystem then r == Failure(CannotOpen(path))
        else if wordIdx < |fileSystem[path]| then r == Success(Strip(fileSystem[path][wordIdx]))
        else r == Success(Strip(defaultWord))
    {
      var config := if locale in words then Some(words[locale]) else defaultConfig;
      if config.None? {
        return Failure(NoConfig);
      }
      if config.value.lines < 0 {
        return Failure(EmptyRange(config.value.lines));
      }
      var path := config.value.filepath;
      var word := defaultWord;
      if path !in fileSystem {
        return Failure(CannotOpen(path));
      }
      var numbered := AEnumerate(fileSystem[path]);
      var k := 0;
      while k < |numbered|
        invariant 0 <= k <= |numbered|
        invariant word == defaultWord
        invariant forall j :: 0 <= j < k ==> numbered[j].0 != wordIdx
      {
        var (idx, line) := numbered[k];
        if idx == wordIdx {
          word := line;
          break;
        }
        k := k + 1;
      }
      r := Success(Strip(word));
    }
  }
}
