/** The disk cache of the genome table: one feather file per day, named after the
    date, in a store that maps file names to tables. */
module Cache {
  import opened Common
  import opened Genomes

  /** A calendar date as `date.today()` gives it, with a four-digit year. */
  datatype Date = Date(year: int, month: int, day: int)

  predicate ValidDate(d: Date) {
    1000 <= d.year <= 9999 && 1 <= d.month <= 12 && 1 <= d.day <= 31
  }

  type Day = d: Date | ValidDate(d) witness Date(2000, 1, 1)

  const CacheDir: string := "./cache"
  /** `os.path.join('./cache', 'genome_df')` plus the dash `strftime` starts with. */
  const Prefix: string := "./cache/genome_df-"
  const Extension: string := ".feather"

  function Pow10(n: nat): (r: nat)
    ensures r >= 1
  {
    if n == 0 then 1 else 10 * Pow10(n - 1)
  }

  predicate IsDigit(c: char) {
    '0' <= c <= '9'
  }

  predicate AllDigits(s: string) {
    forall i :: 0 <= i < |s| ==> IsDigit(s[i])
  }

  /** `n` in decimal, zero-padded to `width` digits, as `%Y`, `%m`, `%d` write it. */
  function Digits(n: nat, width: nat): (r: string)
    ensures |r| == width && AllDigits(r)
  {
    if width == 0 then [] else Digits(n / 10, width - 1) + [(48 + n % 10) as char]
  }

  /** The value of a string of decimal digits. */
  function DigitsValue(s: string): (r: nat)
    requires AllDigits(s)
    ensures r < Pow10(|s|)
  {
    if s == [] then 0 else DigitsValue(s[..|s| - 1]) * 10 + (s[|s| - 1] as int - 48)
  }

  lemma {:induction false} DigitsRoundTrip(n: nat, width: nat)
    requires n < Pow10(width)
    ensures DigitsValue(Digits(n, width)) == n
  {
    if width > 0 {
      DigitsRoundTrip(n / 10, width - 1);
      var s := Digits(n, width);
      assert s[..|s| - 1] == Digits(n / 10, width - 1);
    }
  }

  lemma {:induction false} ValueRoundTrip(s: string)
    requires AllDigits(s)
    ensures Digits(DigitsValue(s), |s|) == s
  {
    if s != [] {
      var init, last := s[..|s| - 1], s[|s| - 1];
      ValueRoundTrip(init);
      LastDigit(DigitsValue(init), last as int - 48);
      assert s == init + [last];
    }
  }

  lemma LastDigit(a: nat, d: int)
    requires 0 <= d < 10
    ensures (a * 10 + d) / 10 == a && (a * 10 + d) % 10 == d
  {
  }

  /** `get_cache_filename()`: `./cache/genome_df-YYYY-MM-DD.feather`. */
  function CacheFilename(d: Day): (r: string)
    ensures |r| == 36
    ensures r[..18] == Prefix && r[18..22] == Digits(d.year, 4) && r[22] == '-'
    ensures r[23..25] == Digits(d.month, 2) && r[25] == '-' && r[26..28] == Digits(d.day, 2) && r[28..] == Extension
  {
    Prefix + Digits(d.year, 4) + "-" + Digits(d.month, 2) + "-" + Digits(d.day, 2) + Extension
  }

  /** Reads the date back out of a cache file name. */
  function ParseCacheFilename(s: string): Option<Day> {
    if |s| == 36 && s[..18] == Prefix && s[22] == '-' && s[25] == '-' && s[28..] == Extension
       && AllDigits(s[18..22]) && AllDigits(s[23..25]) && AllDigits(s[26..28])
    then
      var d := Date(DigitsValue(s[18..22]), DigitsValue(s[23..25]), DigitsValue(s[26..28]));
      if ValidDate(d) then Some(d) else None
    else None
  }

  /** The date can be read back from the file name. */
  lemma ParseCacheFilenameRoundTrip(d: Day)
    ensures ParseCacheFilename(CacheFilename(d)) == Some(d)
  {
    DigitsRoundTrip(d.year, 4);
    DigitsRoundTrip(d.month, 2);
    DigitsRoundTrip(d.day, 2);
  }

  /** The only name that parses to a date is that date's file name. */
  lemma ParseCacheFilenameOnlyNames(s: string)
    requires ParseCacheFilename(s).Some?
    ensures CacheFilename(ParseCacheFilename(s).value) == s
  {
    ValueRoundTrip(s[18..22]);
    ValueRoundTrip(s[23..25]);
    ValueRoundTrip(s[26..28]);
    var r := CacheFilename(ParseCacheFilename(s).value);
    assert r == r[..18] + r[18..22] + [r[22]] + r[23..25] + [r[25]] + r[26..28] + r[28..];
    assert s == s[..18] + s[18..22] + [s[22]] + s[23..25] + [s[25]] + s[26..28] + s[28..];
  }

  /** Distinct days have distinct cache files: a table cached one day is never read
      as another day's. */
  lemma CacheFilenameInjective(d1: Day, d2: Day)
    requires CacheFilename(d1) == CacheFilename(d2)
    ensures d1 == d2
  {
    ParseCacheFilenameRoundTrip(d1);
    ParseCacheFilenameRoundTrip(d2);
  }

  /** The files under the cache directory: name to stored table. */
  class FileStore {
    var files: map<string, seq<Genome>>

    constructor (initial: map<string, seq<Genome>>)
      ensures files == initial
    {
      files := initial;
    }

    /** `to_feather(path)`: writes or replaces one file. */
    method Write(path: string, table: seq<Genome>)
      modifies this
      ensures files == old(files)[path := table]
    {
      files := files[path := table];
    }
  }

  /** The table a load hands back: the cached one when the day's file exists, the
      fetched one otherwise. */
  function LoadResult(files: map<string, seq<Genome>>, today: Day, fetched: seq<Genome>): (r: seq<Genome>)
    ensures CacheFilename(today) in files ==> r == files[CacheFilename(today)]
    ensures CacheFilename(today) !in files ==> r == fetched
  {
    if CacheFilename(today) in files then files[CacheFilename(today)] else fetched
  }

  /** The store after a load: the loaded table is the day's file. */
  function FilesAfterLoad(files: map<string, seq<Genome>>, today: Day, fetched: seq<Genome>): (r: map<string, seq<Genome>>)
    ensures CacheFilename(today) in r && r[CacheFilename(today)] == LoadResult(files, today, fetched)
    ensures forall p :: p != CacheFilename(today) ==> (p in r <==> p in files) && (p in files ==> r[p] == files[p])
  {
    files[CacheFilename(today) := LoadResult(files, today, fetched)]
  }

  /** The store after a load that reads the date twice: `lookup` when it looks for
      the cached file, `save` when it saves the fetched table. A hit leaves the store
      as it is; a miss writes the fetched table under the save day's name, unless that
      file already exists. */
  function FilesAfterLoadAt(files: map<string, seq<Genome>>, lookup: Day, save: Day, fetched: seq<Genome>): (r: map<string, seq<Genome>>)
    ensures CacheFilename(lookup) in files ==> r == files
    ensures CacheFilename(lookup) !in files ==>
      CacheFilename(save) in r && r[CacheFilename(save)] == LoadResult(files, save, fetched)
    ensures forall p :: p != CacheFilename(save) ==> (p in r <==> p in files) && (p in files ==> r[p] == files[p])
  {
    if CacheFilename(lookup) in files || CacheFilename(save) in files then files
    else files[CacheFilename(save) := fetched]
  }

  /** When both readings give the same day, the store is the one `FilesAfterLoad` gives. */
  lemma SameDayLoad(files: map<string, seq<Genome>>, today: Day, fetched: seq<Genome>)
    ensures FilesAfterLoadAt(files, today, today, fetched) == FilesAfterLoad(files, today, fetched)
  {
  }

  /** A load that misses and saves on a later day leaves the lookup day's file
      absent: another load that day fetches again. */
  lemma {:induction false} MidnightLoadLeavesLookupMiss(files: map<string, seq<Genome>>, lookup: Day, save: Day, fetched: seq<Genome>)
    requires lookup != save && CacheFilename(lookup) !in files
    ensures CacheFilename(lookup) !in FilesAfterLoadAt(files, lookup, save, fetched)
  {
    if CacheFilename(lookup) == CacheFilename(save) {
      CacheFilenameInjective(lookup, save);
    }
  }

  /** A second load on the same day finds the day's file, returns the table the
      first load returned whatever a fetch would give, and leaves the store as it is. */
  lemma SecondLoadHitsCache(files: map<string, seq<Genome>>, today: Day, first: seq<Genome>, second: seq<Genome>)
    ensures var after := FilesAfterLoad(files, today, first);
      && CacheFilename(today) in after
      && LoadResult(after, today, second) == LoadResult(files, today, first)
      && FilesAfterLoad(after, today, second) == after
  {
  }
}
