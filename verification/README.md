# graphdoc render core in Dafny

A model of the code of `graphdoc/render.py` that surrounds the template
engine: how `to_doc` and `to_md` guard their arguments and choose between
the memoised and the direct call of `_to_doc`, how `to_md` derives its
default `md_templates` directory from the module's own path, and how it
turns the rendered HTML-flavoured document into Markdown by a fixed,
ordered list of literal substitutions.

| file | module | what it holds |
|---|---|---|
| `results.dfy` | `Results` | `Option` (Python's `None`) and `Result` (a value or the raised exception) |
| `strings.dfy` | `Strings` | `ReplaceAll`, `Split`, `Join` with the semantics of Python's `str.replace`, `str.split`, `str.join`; occurrences (`MatchAt`, `Contains`); the subsequence order |
| `markdown.dfy` | `Markdown` | the cleanup as a list of `Rule`s (`Clean`), the same cleanup as the source's loop (`PostProcess`), and its properties |
| `paths.dfy` | `Paths` | the default Markdown template directory |
| `render.dfy` | `Render` | `_to_doc` (`RenderBody`), the guard, the route choice, `to_doc` (`ToDoc`) and `to_md` (`ToMd`) |

Modelling choices:

- The Jinja render of `index.html` is a parameter of type
  `Renderer = (Schema, Option<string>, Bindings) -> string`: a pure
  function of the schema, the template path and the template variables.
- `lru_cache` is modelled only by the route it selects: `Memoised` (the
  wrapper) or `Direct` (`__wrapped__`). Both reach `RenderBody` with the
  same arguments.
- `_to_doc` passes the types reference as the keyword `reference` next to
  `**context`. A context with its own "reference" entry therefore makes the
  call raise `TypeError`. `RenderBody` returns that failure.
- `use_cache` is a `UseCache` value rather than a `bool`, because the guard
  tests its truthiness (`context is not None and use_cache`) while the
  dispatch tests identity (`use_cache is True`). A truthy value other than
  `True` passes the guard when there is no context, yet takes the direct
  route.
- `__file__` and `os.sep` are the fields of a `Host` parameter. `os.sep` is
  a `Separator`, either '/' or '\\'.
- Every `str.replace` in the cleanup is `Strings.ReplaceAll`. It makes one
  left-to-right pass and replaces each leftmost occurrence without
  overlap, so a replacement is never rescanned.

Behaviour worth knowing, as the code has it:

- The guard tests for `None`, not for emptiness, so an empty dict is
  refused too when `use_cache` is truthy.
- The blank-line collapse is one pass. A run of `n` newlines keeps
  `n - 2 * (n / 4)` of them: four become two, but eight become four. So
  the cleanup is not idempotent. Line-ending normalisation is one pass
  too: "\r\r\n" becomes "\r\n".
- A deletion can join the text on its two sides into a new tag:
  "<<p>p>" becomes "<p>". The Markdown output can therefore still contain
  `<p>`, although the cleanup aims to remove it. The model proves the
  exact behaviour instead: the cleanup only deletes characters, it
  leaves a document without any of its patterns unchanged, and its order
  matters.

## Model

| member | source | states |
|---|---|---|
| `Strings.ReplaceAll` | graphdoc/render.py:69-71 | a replacement no longer than the pattern never lengthens the text, and one of the same length keeps its length |
| `Strings.NoMatchUnchanged` | graphdoc/render.py:69-71 | replacing a pattern that occurs nowhere returns the text unchanged |
| `Strings.ReplaceAllSkipsPrefix` | graphdoc/render.py:69-71 | a prefix without the pattern's first character is copied through, and replacement continues on the rest |
| `Strings.ReplaceAllIsJoinOfSplit` | graphdoc/render.py:69-71 | `s.replace(pat, rep)` equals `rep.join(s.split(pat))` for every text and non-empty pattern |
| `Strings.ReplaceAllDeletes` | graphdoc/render.py:69-71 | when the replacement is a subsequence of the pattern, the result is a subsequence of the input |
| `Strings.Split` | graphdoc/render.py:62 | `str.split` always returns at least one component, so `[-1]` at line 63 always exists |
| `Strings.JoinSplit` | graphdoc/render.py:62-64 | joining the components of a split with the same separator gives back the path |
| `Strings.SplitJoin` | graphdoc/render.py:62-64 | splitting a join gives back the components when none contains the one-character separator |
| `Strings.SplitPiecesLackSeparator` | graphdoc/render.py:62 | no component of a split on a character contains that character |
| `Paths.DirPrefix` | graphdoc/render.py:61-64 | the directory part of a path is a prefix, is empty or ends with the separator, and no separator follows it |
| `Paths.DefaultMdTemplatesPath` | graphdoc/render.py:61-64 | the derived path has the module path's components except the last, which becomes "md_templates"; it is the module's directory followed by "md_templates" |
| `Paths.SiblingComponents` | graphdoc/render.py:61-64 | splitting the derived path gives the module's components with the last replaced by "md_templates" |
| `Paths.SiblingPath` | graphdoc/render.py:61-64 | the derived path equals everything up to the module path's last separator, followed by "md_templates" |
| `Markdown.PostProcess` | graphdoc/render.py:69-72 | the two chained replacements and the deletion loop compute the ordered rule list `Clean`, and the result is a subsequence of the rendered document |
| `Markdown.ApplyRulesDeletes` | graphdoc/render.py:69-71 | a sequence of rules each of which only deletes, applied in order, only deletes |
| `Markdown.ApplyRulesUnmatched` | graphdoc/render.py:69-71 | rules none of whose patterns occur leave the document unchanged |
| `Markdown.CleanOnlyDeletes` | graphdoc/render.py:69-71 | the Markdown output is a subsequence of the rendered document: never longer, no character more often, no '\r', '<' or '\n' the document lacks |
| `Markdown.CleanUnchanged` | graphdoc/render.py:69-71 | a document containing none of the cleanup's patterns is returned unchanged |
| `Markdown.CollapseNewlineRun` | graphdoc/render.py:69 | the blank-line collapse turns a run of `n` newlines into `n - 2 * (n / 4)` newlines |
| `Markdown.CleanNewlineRun` | graphdoc/render.py:69-71 | the whole cleanup on a run of newlines is exactly the single-pass collapse |
| `Markdown.CleanNotIdempotent` | graphdoc/render.py:69-71 | eight newlines become four, and a second cleanup makes them two |
| `Markdown.NormalizeCarriageReturnRun` | graphdoc/render.py:69 | line-ending normalisation rewrites only the last "\r\n" of a run of carriage returns before a newline |
| `Markdown.CleanCanFormNewTag` | graphdoc/render.py:70-71 | "<<p>p>" cleans to "<p>": deleting a tag can form a new one |
| `Markdown.ClosingParagraphTakesNewline` | graphdoc/render.py:70-71 | between text without '<', '\r' or '\n', "</p>" followed by a newline loses the newline as well, and the swapped order would keep it, so the order matters |
| `Markdown.ClosingParagraphAlone` | graphdoc/render.py:70-71 | between text without '<', '\r' or '\n', "</p>" not followed by a newline loses only the tag |
| `Render.ToDoc` | graphdoc/render.py:38-49 | refuses with ValueError exactly when a context (even an empty one) meets a truthy `use_cache`, before anything else; raises TypeError when an admitted context has its own "reference" entry; the memoised wrapper is reached only for `use_cache` `True` itself and never with a context; otherwise the caller's arguments reach `_to_doc` unchanged |
| `Render.MdTemplatesPath` | graphdoc/render.py:61-64 | a given template path is passed through unchanged; a missing one becomes the module's components with the last replaced by "md_templates" |
| `Render.ToMd` | graphdoc/render.py:52-72 | the same refusals and route choice as `to_doc`, the guard checked before any path is derived; on success `_to_doc` gets the Markdown template path, the memoised call carries no context, and the output is the cleaned, and only shortened, render |
| `Render.EmptyContextRefused` | graphdoc/render.py:45-68 | an empty context with a truthy `use_cache` is refused by both entry points, whatever the other arguments |
| `Render.NoContextRendersAsEmpty` | graphdoc/render.py:33 | `_to_doc` renders a missing context exactly as an empty mapping |
| `Render.CacheFlagOnlySelectsRoute` | graphdoc/render.py:45-68 | without a context, `True` and `False` differ only in the route, in both entry points; the arguments and the document are the same |
| `Render.ContextNeedsDirectRoute` | graphdoc/render.py:45-68 | in both entry points a context is accepted only on the direct route, and is then rendered with its own variables |
| `Render.ReferenceKeyRaises` | graphdoc/render.py:33-35 | a context that passes the guard but has its own "reference" entry makes both entry points raise TypeError, since line 35 would pass that keyword twice |
| `Render.TruthyNonTrueBypassesCache` | graphdoc/render.py:47-49 | a truthy `use_cache` other than `True` passes the guard but takes the direct route |
| `Render.MarkdownIsCleanedDoc` | graphdoc/render.py:65-72 | `to_md` succeeds exactly when `to_doc` on the Markdown template path does, otherwise raises the same exception, makes the same call, and returns its cleaned document |

## Left out

- Jinja environment, template loading and rendering (graphdoc/render.py:16-22, 35): a foreign library; the render is the `Renderer` parameter.
- The `ChoiceLoader` installed into the process-wide `_jinja_env.loader` when a template path is given (lines 27-31): global mutable state of a library. Each call's loader is taken to be the one its template path selects.
- `lru_cache(maxsize=50)` storage and least-recently-used eviction (line 25): only the choice of route is modelled.
- `utilities.build_types_reference` (line 34) and the `filters` module: utilities is not part of this model, so the schema-graph traversal is folded into the `Renderer`.
- Parsing of `graphql.GraphQLSchema`: an external library; a schema is an opaque `Schema` value.
- Render.ToDoc: success is claimed on the assumption that the template engine and the schema parser never raise. `TemplateError` and schema parse errors are not modelled, because `Renderer` is a total function. The one failure of the call itself that is modelled is the `TypeError` for a context with a "reference" entry. A context with a "self" entry also raises `TypeError` at line 35, because Jinja's `Template.render` takes `self` as its first parameter; that case is not modelled and the contract claims success for it. The error message is fixed to the ending Python's message shares across versions, not its full text.
- Render.ToDoc: the document is stated as `_to_doc`'s output for the call's arguments on both routes. In the source a memoised result can predate a loader change made by a later call, and the model does not represent that.
- Render.ToMd: success is claimed on the same assumption as `Render.ToDoc`: the engine and parser never raise. It carries the same caveat about memoised results and loader changes for the document before cleanup.
- Context keys that are not strings (which `**context` refuses with a `TypeError`): `Bindings` has string keys only.
