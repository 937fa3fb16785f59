/**
 * Pure helpers of the file viewer and the response middleware in
 * `src/app.py`: the extension-to-language table, extension extraction,
 * the binary-content test, the page the viewer chooses, and the gzip decision.
 */
module Viewer {

  import opened Common
  import opened Strings

  /** The Prism.js language of each known extension. */
  const LangMap: map<string, string> :=
    map[
      "js" := "javascript", "jsx" := "jsx", "ts" := "typescript", "tsx" := "tsx",
      "html" := "html", "htm" := "html", "css" := "css", "scss" := "scss",
      "sass" := "sass", "less" := "less", "py" := "python", "pyx" := "python",
      "pyw" := "python", "json" := "json", "xml" := "xml", "yaml" := "yaml",
      "yml" := "yaml", "toml" := "toml", "ini" := "ini", "csv" := "csv",
      "md" := "markdown", "markdown" := "markdown", "rst" := "rest", "tex" := "latex",
      "sh" := "bash", "bash" := "bash", "zsh" := "bash", "fish" := "bash",
      "ps1" := "powershell", "sql" := "sql", "sqlite" := "sql", "mysql" := "sql",
      "pgsql" := "sql", "conf" := "apache", "htaccess" := "apache", "nginx" := "nginx",
      "dockerfile" := "docker", "php" := "php", "rb" := "ruby", "go" := "go",
      "rs" := "rust", "cpp" := "cpp", "cxx" := "cpp", "cc" := "cpp",
      "c" := "c", "h" := "c", "hpp" := "cpp", "java" := "java",
      "cs" := "csharp", "swift" := "swift", "kt" := "kotlin", "scala" := "scala",
      "dart" := "dart", "r" := "r", "lua" := "lua", "perl" := "perl",
      "pl" := "perl", "hs" := "haskell", "elm" := "elm", "clj" := "clojure",
      "ml" := "ocaml", "fs" := "fsharp", "vim" := "vim", "diff" := "diff",
      "patch" := "diff", "log" := "log", "makefile" := "makefile", "cmake" := "cmake",
      "gradle" := "gradle", "properties" := "properties", "gitignore" := "git", "gitconfig" := "git"
    ]

  /** `lang_map.get(extension, 'text')`. */
  function Language(extension: string): (lang: string)
    ensures extension in LangMap ==> lang == LangMap[extension]
    ensures extension !in LangMap ==> lang == "text"
  {
    if extension in LangMap then LangMap[extension] else "text"
  }

  /** `file_path.split('.')[-1].lower() if '.' in file_path else ''`. */
  function Extension(path: string): string
  {
    if Contains(path, ".") then
      var parts := Split(path, ".");
      Lower(parts[|parts| - 1])
    else ""
  }

  /** The extension is the lowercased text after the last dot, or empty when there is no dot. */
  lemma ExtensionShape(path: string)
    ensures '.' !in path ==> Extension(path) == ""
    ensures '.' in path ==>
      exists prefix, raw :: path == prefix + "." + raw && '.' !in raw && Extension(path) == Lower(raw)
    ensures '.' !in Extension(path)
  {
    ContainsChar(path, '.');
    if '.' in path {
      var parts := Split(path, ".");
      SplitAtLeastTwo(path, ".");
      JoinSplit(path, ".");
      JoinLast(parts, ".");
      SplitPiecesFree(path, ".");
      var raw := parts[|parts| - 1];
      ContainsChar(raw, '.');
      var prefix := Join(parts[..|parts| - 1], ".");
      assert path == prefix + "." + raw;
      assert '.' !in Lower(raw) by {
        forall i | 0 <= i < |raw| ensures Lower(raw)[i] != '.' {}
      }
    }
  }

  /** A character the printable count accepts: `c.isprintable() or c in '\n\r\t'`. */
  predicate Shown(c: char, isPrintable: char -> bool)
  {
    isPrintable(c) || c == '\n' || c == '\r' || c == '\t'
  }

  /** `sum(1 for c in sample if c.isprintable() or c in '\n\r\t')`. */
  function PrintableCount(sample: string, isPrintable: char -> bool): nat
  {
    if |sample| == 0 then 0
    else
      var last := if Shown(sample[|sample| - 1], isPrintable) then 1 else 0;
      PrintableCount(sample[..|sample| - 1], isPrintable) + last
  }

  /** Positions of the characters that are neither printable nor `\n`, `\r`, `\t`. */
  function NonPrintableAt(sample: string, isPrintable: char -> bool): set<nat>
  {
    set i: nat | i < |sample| && !Shown(sample[i], isPrintable)
  }

  /** The count subtracted from the length is the number of non-printable positions. */
  lemma {:induction false} NonPrintableCount(sample: string, isPrintable: char -> bool)
    ensures PrintableCount(sample, isPrintable) <= |sample|
    ensures |NonPrintableAt(sample, isPrintable)| == |sample| - PrintableCount(sample, isPrintable)
  {
    if |sample| > 0 {
      var n := |sample| - 1;
      var init := sample[..n];
      NonPrintableCount(init, isPrintable);
      var s0 := NonPrintableAt(init, isPrintable);
      var s1 := NonPrintableAt(sample, isPrintable);
      if Shown(sample[n], isPrintable) {
        assert s1 == s0 by {
          forall i: nat ensures i in s1 <==> i in s0 {
            if i < n { assert init[i] == sample[i]; }
          }
        }
      } else {
        assert s1 == s0 + {n} by {
          forall i: nat ensures i in s1 <==> i in s0 + {n} {
            if i < n { assert init[i] == sample[i]; }
          }
        }
      }
    }
  }

  const SampleSize := 1000

  /** `content[:1000]`. */
  function Sample(content: string): string
  {
    if |content| <= SampleSize then content else content[..SampleSize]
  }

  /**
   * `has_null_bytes or has_high_non_printable`: the ratio test
   * `(len - printable) / len > 0.3` written in integers.
   */
  predicate IsBinary(content: string, isPrintable: char -> bool)
  {
    var sample := Sample(content);
    '\0' in content
    || (|sample| > 0 && 10 * (|sample| - PrintableCount(sample, isPrintable)) > 3 * |sample|)
  }

  /** Binary iff a NUL occurs, or more than 30% of the first 1000 characters are non-printable. */
  lemma BinaryIff(content: string, isPrintable: char -> bool)
    ensures var sample := Sample(content);
      IsBinary(content, isPrintable) <==>
        '\0' in content || 10 * |NonPrintableAt(sample, isPrintable)| > 3 * |sample|
  {
    NonPrintableCount(Sample(content), isPrintable);
  }

  /** Text without NUL whose sample is at most 30% non-printable is shown as text. */
  lemma ThirtyPercentIsText(content: string, isPrintable: char -> bool)
    requires '\0' !in content
    requires 10 * |NonPrintableAt(Sample(content), isPrintable)| <= 3 * |Sample(content)|
    ensures !IsBinary(content, isPrintable)
  {
    BinaryIff(content, isPrintable);
  }

  /** What the viewer page shows. */
  datatype ViewerPage =
    | NoFileSpecified                                   // 400
    | FileNotFound                                      // 404
    | BinaryNotice(length: nat)
    | Highlighted(language: string, text: string)       // <code class="language-...">
    | PlainText(text: string)                           // plain <pre>

  /** The branch structure of `serve_file_viewer`, `content` being what the wrapper read. */
  function Page(filePath: string, content: Option<string>, isPrintable: char -> bool): ViewerPage
  {
    if filePath == "" then NoFileSpecified
    else if content.None? then FileNotFound
    else if IsBinary(content.value, isPrintable) then BinaryNotice(|content.value|)
    else
      var language := Language(Extension(filePath));
      if language != "text" then Highlighted(language, content.value) else PlainText(content.value)
  }

  /**
   * Only a missing path gives 400 and only a missing file 404; readable text is
   * highlighted exactly when its extension's language is not `text`.
   */
  lemma PageChoice(filePath: string, content: Option<string>, isPrintable: char -> bool)
    ensures var page := Page(filePath, content, isPrintable);
      var readable := filePath != "" && content.Some? && !IsBinary(content.value, isPrintable);
      && (page.NoFileSpecified? <==> filePath == "")
      && (page.FileNotFound? <==> filePath != "" && content.None?)
      && (page.BinaryNotice? <==> filePath != "" && content.Some? && IsBinary(content.value, isPrintable))
      && (page.BinaryNotice? ==> page.length == |content.value|)
      && (page.Highlighted? <==> readable && Extension(filePath) in LangMap && LangMap[Extension(filePath)] != "text")
      && (page.Highlighted? ==> page.language == LangMap[Extension(filePath)] && page.text == content.value)
      && (page.PlainText? ==> page.text == content.value)
  {
  }

  /**
   * `gzip_response`: compress only when the client's Accept-Encoding contains
   * `gzip`, the status is 200, the response is not a passthrough, and the body
   * is longer than 500 bytes.
   */
  predicate ShouldGzip(acceptEncoding: Option<string>, statusCode: int, directPassthrough: bool, bodyLength: nat)
  {
    var header := if acceptEncoding.Some? then acceptEncoding.value else "";
    Contains(header, "gzip") && statusCode == 200 && !directPassthrough && bodyLength > 500
  }

  /** The `after_request` gate: a content type containing `text/`, `application/javascript` or `application/json`. */
  predicate CompressibleType(contentType: Option<string>)
  {
    contentType.Some? && contentType.value != ""
    && (Contains(contentType.value, "text/") || Contains(contentType.value, "application/javascript")
        || Contains(contentType.value, "application/json"))
  }

  /** Any content type that mentions one of the three families anywhere passes the gate. */
  lemma CompressibleFamilies(before: string, after: string)
    ensures CompressibleType(Some(before + "text/" + after))
    ensures CompressibleType(Some(before + "application/javascript" + after))
    ensures CompressibleType(Some(before + "application/json" + after))
  {
    ContainsInfix(before, "text/", after);
    ContainsInfix(before, "application/javascript", after);
    ContainsInfix(before, "application/json", after);
  }

  /** A header that lists `gzip` anywhere qualifies, whatever surrounds it. */
  lemma GzipListedAnywhere(before: string, after: string, bodyLength: nat)
    requires bodyLength > 500
    ensures ShouldGzip(Some(before + "gzip" + after), 200, false, bodyLength)
  {
    ContainsInfix(before, "gzip", after);
  }

  /** A missing header, or one that does not contain `gzip`, never gets a gzip body. */
  lemma NoGzipWithoutToken(acceptEncoding: Option<string>, statusCode: int, directPassthrough: bool, bodyLength: nat)
    requires acceptEncoding.None? || !Contains(acceptEncoding.value, "gzip")
    ensures !ShouldGzip(acceptEncoding, statusCode, directPassthrough, bodyLength)
  {
    if acceptEncoding.None? {
      assert !Contains("", "gzip");
    }
  }

  /** Each of the other three conditions is necessary too. */
  lemma NoGzipOtherwise(acceptEncoding: Option<string>, statusCode: int, directPassthrough: bool, bodyLength: nat)
    ensures statusCode != 200 ==> !ShouldGzip(acceptEncoding, statusCode, directPassthrough, bodyLength)
    ensures directPassthrough ==> !ShouldGzip(acceptEncoding, statusCode, directPassthrough, bodyLength)
    ensures bodyLength <= 500 ==> !ShouldGzip(acceptEncoding, statusCode, directPassthrough, bodyLength)
  {
  }

  /** A header without the letter `g` cannot contain `gzip`. */
  lemma NoLetterNoToken(header: string)
    requires 'g' !in header
    ensures !Contains(header, "gzip")
  {
    assert "gzip"[0] == 'g';
    if Contains(header, "gzip") {
      ContainsChars(header, "gzip");
    }
  }
}
