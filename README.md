# random-page-server, modelled in Dafny

random-page-server is a small HTTP responder written in Rust (`src/main.rs`).
It serves the default nginx welcome page at `GET /`. Before the closing
`</body>` tag it splices a paragraph holding a random-length prefix of a
block of filler text. The filler is generated once at start-up from the
62-character alphabet `[a-zA-Z0-9]`, with a line break before every 60th
character. Every other request gets an empty 404. The listen port comes from
the single command-line argument, if there is exactly one and it parses as a
`u16`; otherwise it is 80.

This project models the sequential logic of that file, with the random draws
made explicit inputs:

- `filler.dfy`, module `Filler`: `generate_random_alphanumeric`. The draws
  are a sequence of alphabet indices (`AlphaIndex`, below 62), one per
  generated character. The text is a recursive function over positions,
  like the source's `(0..size).map(...).collect()`.
- `handler.dfy`, module `Handler`: `handle_request`. A method that builds
  the page, inserts the fragment in place and sets the 404 status on a
  default response. The random prefix length `gen_range(0..=len)` is the
  argument `insertLen`, with `insertLen <= |randomText|`.
- `port.dfy`, module `PortArg`: Rust's `u16::from_str` as the port argument
  uses it.
- `launch.dfy`, module `Launch`: the port choice in `main` (`let mut port`
  reassigned under `args.len() == 2`), and the one-time generation of the
  20 KiB filler.
- `options.dfy`, module `Options`: an `Option` type with `unwrap_or`.

The page and the filler are ASCII. So the byte offsets used by Rust's
`find`, `insert_str`, `len` and slicing are the character offsets used here.
The page is written as its 25 source lines joined by line breaks
(`JoinLines(PageLines)`). That is the same text as the raw string literal,
and the solver does not expand it eagerly.

Behaviour worth noting in `src/main.rs`:
- The response body does not report the prefix length.
- Only `args[1]` is read, and only when it is the single user argument.
- The filler size is fixed at `20 * 1024` (src/main.rs:105); no argument sets it.
- A bad or missing argument silently gives port 80, with no diagnostic.

## Model

| member | source | states |
|---|---|---|
| Filler.AlphabetIsAlphanumeric | src/main.rs:18-20 | the alphabet has 62 pairwise distinct characters, and a character is in it exactly when it is in `[a-zA-Z0-9]` |
| Filler.Piece | src/main.rs:25-29 | position `i` emits two characters (a line break, then the drawn character) when `i > 0 && i % 60 == 0`, and one otherwise; the drawn character comes last |
| Filler.Generate | src/main.rs:17-32 | the text for `size` draws has length `size + (size - 1) / 60` (0 for `size == 0`), so it is longer than `size` once `size > 60` |
| Filler.GenerateWithoutBreaks | src/main.rs:22-31 | with its line breaks removed, the text is exactly the `size` drawn alphabet characters, in draw order |
| Filler.GenerateAt | src/main.rs:22-31 | closed-form layout: offset `j` holds a line break when `j % 61 == 60`, and otherwise the character drawn for position `(j / 61) * 60 + j % 61` |
| Filler.BreakOffsets | src/main.rs:25-29 | offset `j` holds a line break if and only if `j % 61 == 60`; there are line breaks nowhere else |
| Filler.BreakBeforeSlot | src/main.rs:24-29 | for `0 < i < size`, the character drawn for position `i` is at offset `i + i / 60`, and the offset before it holds a line break if and only if `i % 60 == 0` |
| Filler.GenerateCharacters | src/main.rs:18-31 | every character of the text is a line break or alphanumeric, never `<` |
| Filler.FillerHasNoMarkup | src/main.rs:18-31 | the whole filler holds no `<` |
| Handler.DefaultResponse | src/main.rs:168 | `Response::default()` has status 200 and an empty body |
| Handler.Find | src/main.rs:155-156 | `str::find` returns an offset where the pattern occurs with no earlier occurrence, or none exactly when the pattern occurs nowhere |
| Handler.SplicePos | src/main.rs:155-157 | the insertion offset is the first occurrence of `</body>`, or the page length when the tag is absent |
| Handler.InsertStr | src/main.rs:160 | `insert_str` keeps the text before the offset and after it, and puts the inserted text between them |
| Handler.Fragment | src/main.rs:152 | the fragment is `<p>`, then the text, then `</p>`: 7 characters more than the text |
| Handler.NoCloseBeforeFragmentEnd | src/main.rs:152-160 | after splicing a fragment whose text holds no `<`, no `</body>` starts before the fragment's end |
| Handler.SpliceBeforeFirstClose | src/main.rs:151-160 | in the spliced page, the first `</body>` (or the end of the page when there is none) comes right after the fragment |
| Handler.SpliceBeforeRealClose | src/main.rs:151-160 | when the page has a `</body>`, splicing a prefix of `k` filler characters puts a `</body>` right after the fragment, and it is the first one |
| Handler.PageHasBodyClose | src/main.rs:122-146 | the default page has `</body>` at the start of its next-to-last line |
| Handler.PageSplicePos | src/main.rs:155-157 | on the default page the fragment is inserted before a real `</body>`, not appended at the end |
| Handler.HandleRequest | src/main.rs:113-175 | status 200 exactly for `GET /`; everything else is 404 with an empty body; the 200 body is the page with `<p>` + filler[..k] + `</p>` spliced in, the page unchanged on both sides, length page + k + 7, and, for a filler without `<`, the fragment ends right before the body's first `</body>` |
| PortArg.ParseU16 | src/main.rs:91-94 | a parsed port is at most 65535 and comes from an optional `+` followed by decimal digits only |
| PortArg.ParseU16Meaning | src/main.rs:91-94 | for every input: the parse succeeds exactly when, after one optional leading `+`, a non-empty string of decimal digits remains whose value is at most 65535, and then it yields that value |
| PortArg.ParseToDecimal | src/main.rs:91-94 | the decimal spelling of `n` parses to `n` when `n <= 65535` and is rejected otherwise |
| PortArg.ParsePlusSign | src/main.rs:91-94 | one leading `+` is accepted and ignored; a second one makes the parse fail |
| PortArg.ParseLeadingZero | src/main.rs:91-94 | a leading zero does not change the parsed value |
| PortArg.ParseAccepts | src/main.rs:91-94 | "8080" and "+8080" parse to 8080, and "65535" to 65535 |
| PortArg.ParseRejects | src/main.rs:91-94 | "65536", "-1", "" and "notaport" do not parse |
| Launch.SelectPort | src/main.rs:86-95 | the port is the parsed value only for exactly one user argument that parses; with no argument, more than one, or a failed parse it is 80; it is always at most 65535 |
| Launch.Startup | src/main.rs:84-106 | start-up yields that port and the filler generated from 20480 draws: 20821 characters, the draws' letters once the breaks are removed, and no `<` |

## Left out

- The hyper server, `make_service_fn`/`service_fn`, socket binding and the `SocketAddr` (src/main.rs:37-50): network I/O and library wrappers.
- The tokio runtime, `num_cpus`, the stdin reader task, the `oneshot` channel and the `tokio::select!` shutdown race (src/main.rs:58-73, 98-102): concurrency and I/O.
- `println!`/`eprintln!` output (src/main.rs:53-55, 70, 76-78): console output only.
- The random number generator (`thread_rng`, `choose`, `gen_range`) and its distribution: the draws are inputs (`draws`, `insertLen`), and only their ranges are modelled.
- `Arc` reference counting: the filler is an immutable `string` value passed unchanged to each `HandleRequest` call, which has no `modifies` clause.
- Parsing of the request line: a `Request` carries the method token and `uri().path()` as hyper produces them. The query string is not part of the path, so `GET /?x=1` is also served.
- Response headers: the source sets none, and the model carries only the status and the body.
- `env::args()` panicking on an argument that is not valid Unicode: the arguments are given as strings.
- The error kind of a failed `u16` parse (`Empty`, `InvalidDigit`, `PosOverflow`): the caller discards it with `unwrap_or`.
- Handler.PageHasBodyClose: gives the tag's offset as one past the length of the first 23 lines, not as the literal 596, and does not prove that no earlier `</body>` exists. Checking the 611-character text character by character is too costly for the solver. Handler.PageSplicePos therefore states only that the insertion offset is a real `</body>` occurrence.
