# linkchecker in Dafny

A verified model of the core of `linkchecker`. This Go tool pulls the link
annotations out of PDF files and reports two things about each URL. The
first is whether it is *valid*: allowed by a whitelist or blacklist of domain
suffixes. The second is whether it is *live*: a GET of it ended in `200 OK`.
The model covers `lib.go`:

- `Links` (`link.dfy`): the `Link` record (`url`, `isValid`, `isLive`) and its
  coloured one-line rendering `Link.String`, here `Render`.
- `DomainPolicy` (`domain_policy.dfy`): the domain classifier `validateLinks`.
  `ValidateLinks` is an in-place loop over an `array<Link>`; its inner scan
  stops at the first matching entry. It is proved equal to `ValidatedLinks`,
  which gives each link the per-URL `Verdict`:
  - both lists set: deny everything;
  - neither list set: allow everything;
  - whitelist only: default-deny, and a match allows the link;
  - blacklist only: default-allow, and a match denies it;
  - a URL that does not parse: invalid.
  Matching is `strings.HasSuffix` against the parsed host, or against the raw
  URL when the host is empty.
- `Liveness` (`liveness.dfy`): `livenesscheck`. `LivenessCheck` is an
  in-place loop proved equal to `ProbedLinks`. Each link's `isLive` is true
  exactly when its request succeeded with final status 200.
- `ConfigValidation` (`config.dfy`): the `Config` object and `ValidateConfig`.
  `ValidateConfig` may append a directory's PDF files to `config.pdfs`. It is
  proved against `CheckConfig`, which keeps the variable shadowing of
  lib.go:53 exactly as written (see Findings).
- `Engine` (`engine.dfy`): `CheckLinks`, which runs extraction, then
  classification, then probing, over one fresh array of links.
- `Wrappers` (`wrappers.dfy`): `Option` and `Result`.

Calls to code outside the core are parameters:

- `url.Parse` is `parse: string -> UrlParse`. It yields a parse error or a
  Host string, which may be empty.
- Each `http.Get` is one `ProbeOutcome` in `outcomes`, in request order. It
  is a request error or the final status code after redirects.
- `filepath.Glob` is `glob: string -> DirListing`.
- `extractsLinks` is `extract: seq<string> -> Extraction`.

A URL that fails to parse is marked invalid (lib.go:139-143); its raw
string is never matched. The model follows the code (`ParseErrorDenies`).

## Model

| member | source | states |
|---|---|---|
| `Links.Render` | lib.go:30-44 | the line is the validity mark, a space, the liveness mark, a space, and then green-or-red, the URL verbatim and the reset code; each mark is a fixed ten-character tick or cross |
| `Links.RenderInjective` | lib.go:30-44 | two links that render to the same line are the same link: the line loses none of the URL and neither flag |
| `Links.GreenOnlyWhenValidAndLive` | lib.go:39-42 | the URL is coloured green exactly when the link is both valid and live |
| `DomainPolicy.ValidatedLinks` | lib.go:123-163 | the classifier's result has the same length and order as its input; each link keeps its `url` and `isLive`, and its `isValid` is the verdict for its own URL |
| `DomainPolicy.ValidateLinks` | lib.go:123-163 | the in-place loop, including the inner scan that stops at the first match, leaves the array equal to `ValidatedLinks` of its old contents |
| `DomainPolicy.ConflictDeniesAll` | lib.go:124-129 | if both lists are non-empty, every link is invalid, whatever its URL |
| `DomainPolicy.NoPolicyAllowsAll` | lib.go:131-136 | if both lists are empty, every link is valid, whatever its URL |
| `DomainPolicy.WhitelistMode` | lib.go:144-161 | whitelist only, URL parsed: valid exactly when some entry is a suffix of the host, or of the raw URL when the host is empty |
| `DomainPolicy.BlacklistMode` | lib.go:144-161 | blacklist only, URL parsed: valid exactly when no entry is a suffix of the host, or of the raw URL when the host is empty |
| `DomainPolicy.ParseErrorDenies` | lib.go:139-143 | when one list is active and the URL does not parse, the link is invalid in both modes; the raw string is not matched |
| `DomainPolicy.HasSuffixIffSplit` | lib.go:157 | the suffix test holds exactly when the host is some string followed by the entry |
| `DomainPolicy.SuffixIgnoresLabels` | lib.go:157 | the test knows nothing of domain labels: "xab.com" ends with "b.com", so blacklisting "b.com" rejects https://xab.com |
| `DomainPolicy.EmptyEntryMatchesAll` | lib.go:155-158 | an empty entry is a suffix of every host: when exactly one list is active and holds "", every URL that parses is valid in whitelist mode and invalid in blacklist mode |
| `DomainPolicy.EntryOrderIrrelevant` | lib.go:155-161 | stopping at the first match does not matter: permuting either list never changes a verdict |
| `DomainPolicy.ValidationIgnoresPriorFlags` | lib.go:123-163 | every path assigns `isValid`, so the result does not depend on the flags the links had before |
| `DomainPolicy.ValidationIdempotent` | lib.go:123-163 | a second run with the same lists changes nothing |
| `DomainPolicy.TableRow` | lib_test.go:40-71 | row by row, with the hosts url.Parse reports and the list ["a.com"]: the five a.com URLs (the bare "a.com" included) match and the four b.com URLs do not |
| `DomainPolicy.BlacklistTable` | lib_test.go:40-55 | blacklist ["a.com"] over the nine test URLs gives false five times, then true four times |
| `DomainPolicy.WhitelistTable` | lib_test.go:56-71 | whitelist ["a.com"] over the same URLs gives the inverse: true five times, then false four times |
| `Liveness.ProbedLinks` | lib.go:165-174 | the prober's result has the same length and order as its input; each link keeps its `url` and `isValid`, and is live exactly when its own request succeeded with status 200 |
| `Liveness.LivenessCheck` | lib.go:165-174 | the in-place loop leaves the array equal to `ProbedLinks` of its old contents and the outcomes |
| `Liveness.ProbeTable` | lib_test.go:109-127 | the test's four links: 404 and 403 are dead, 200 is live, a redirect that ends at 200 is live |
| `Liveness.RequestFailureIsDead` | lib.go:168-170 | a link whose request fails is marked dead, whatever it was before, and keeps its URL and validity |
| `Liveness.ProbesIndependent` | lib.go:166-173 | changing the outcome of one request changes no other link |
| `Liveness.ProbeIdempotent` | lib.go:165-174 | probing again with the same outcomes changes nothing |
| `ConfigValidation.ValidateConfig` | lib.go:46-65 | the method's returned error and the new `config.pdfs` are those of `CheckConfig` on the old list; nothing else in the config changes |
| `ConfigValidation.EmptyConfigRefused` | lib.go:47-49 | with no files and no directory, the error asks for files or a directory and the list stays empty |
| `ConfigValidation.DirectoryFilesAppended` | lib.go:52-58 | with a directory, a listing failure is returned and names the directory; otherwise the files found are appended to `pdfs` |
| `ConfigValidation.NoPdfsTestIgnoresListing` | lib.go:51-62 | once the directory is read, "no PDF files found" is returned exactly when the list given on the command line was empty, whatever the directory held |
| `ConfigValidation.DirectoryOnlyRefused` | lib.go:51-62 | no files, directory "docs" holding docs/a.pdf: the error is "no PDF files found", yet `pdfs` is now ["docs/a.pdf"] |
| `ConfigValidation.IntendedCheckConfig` | lib.go:46-65 | corrected check: accepts exactly when the final list is non-empty and the listing did not fail; "no PDF files found" exactly when the directory was read and the final list is empty; same final list as the code |
| `ConfigValidation.IntendedDiffersOnlyOnDirectoryOnly` | lib.go:51-62 | the written and the corrected check differ exactly on configurations with no files of their own and at least one PDF in the directory |
| `Engine.CheckLinks` | lib.go:176-185 | an extraction error is the only failure and is passed up; otherwise one link per extracted URL, in order, with its URL, the domain verdict and its own probe outcome; links are probed whatever their validity |
| `Engine.PassesCommute` | lib.go:182-183 | classification and probing write disjoint fields, so either order gives the same links |

## Findings

| source | as written | input that shows it | evidently intended | confidence | as-written member | corrected member |
|---|---|---|---|---|---|---|
| lib.go:51-62 | `pdfFiles, err :=` at line 53 declares a second `pdfFiles`, local to the `if` block, so the test at line 60 reads the original `config.Pdfs` | `Pdfs` empty, `Directory` "docs" containing docs/a.pdf: the call returns "no PDF files found", although `config.Pdfs` now holds docs/a.pdf | refuse only when no PDF is known once the directory has been read | high; not executed | `ConfigValidation.DirectoryOnlyRefused` | `ConfigValidation.IntendedCheckConfig` |

`ValidateConfig` and `CheckConfig` model the code as written. The corrected
`IntendedCheckConfig` stands beside them; nothing else in the core calls
`ValidateConfig`.

## Left out

- PDF link extraction (`extractsLinks`, `extractLink`, lib.go:75-121) is file I/O through the pdfcpu library. Its result is the `extract` parameter of `CheckLinks`. The dropping of annotations with an empty URI (lib.go:109) is part of that parameter.
- The order of the extracted URLs is not fixed in the source: `extractLink` ranges over Go maps (lib.go:101-104), whose iteration order varies between runs, which is why the extraction test sorts first (lib_test.go:135). The deterministic `extract` parameter stands for one run.
- `http.Get` (lib.go:167) is network access: redirect following, timeouts and transport errors. Each request's result is a supplied `ProbeOutcome`, already resolved through redirects.
- `filepath.Glob` and the `"*.pdf"` pattern (lib.go:67-73) are filesystem access. They are the `glob` parameter; only the wrapping of its error is modelled (`PdfsInDirectory`).
- `url.Parse` is a standard-library parser. It is the `parse` parameter. The test-table lemmas assume it reports the hosts Go's parser gives for those URLs (`ReadsTableHosts`).
- Go strings are byte strings, and `strings.HasSuffix` compares bytes. The model uses sequences of characters. For valid UTF-8 the two suffix tests agree.
- Go's nil and empty slices are not distinguished; the code only ever tests their length.
- `cmd/main.go` (argument parsing with kong, printing the report) is a command-line wrapper with no policy.
- `TestExtractLinks` (lib_test.go:130-144) needs a PDF fixture, and it calls `extractLinks`, a name the code never defines.
- The code has no concurrency, timeouts or retries. So a worker pool, and the claim that its result is independent of the pool size, is not part of this model.
- The `error` strings in Go are model datatypes (`ConfigError`, `CheckError`) carrying the same information; the exact message text is not modelled.
