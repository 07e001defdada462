/** The entry points `to_doc` and `to_md` and the memoised body `_to_doc`
    (graphdoc/render.py, lines 25-72): the guard against a context combined
    with the cache, the choice between the memoised and the direct call, the
    default Markdown template directory and the Markdown cleanup. The
    template engine is a parameter. */
module Render {
  import opened Results
  import opened Strings
  import Markdown
  import Paths

  /** A schema as callers pass it: SDL source text or an already built
      schema object, known here only by its identity. */
  datatype Schema = SchemaSource(sdl: string) | SchemaObject(handle: nat)

  /** Extra template variables; their values are opaque to this code. */
  type Bindings = map<string, string>

  /** The `use_cache` argument as Python sees it. The guard tests its
      truthiness, the dispatch tests identity with `True`, so a truthy value
      other than `True` (such as `1`) is told apart from `True` itself. */
  datatype UseCache = Exactly(b: bool) | OtherValue(truthy: bool) {
    predicate Truthy() {
      match this
      case Exactly(b) => b
      case OtherValue(t) => t
    }

    predicate IsTrue() {
      this == Exactly(true)
    }
  }

  /** The Jinja render of 'index.html' with the loader the template path
      selects and the given variables. */
  type Renderer = (Schema, Option<string>, Bindings) -> string

  /** Which callable receives the arguments: the `lru_cache` wrapper of
      `_to_doc`, or `_to_doc.__wrapped__`. */
  datatype Route = Memoised | Direct

  /** The call an entry point makes to `_to_doc`. */
  datatype Call = Call(route: Route, schema: Schema, templatesPath: Option<string>, context: Option<Bindings>)

  /** A successful entry-point result: the call made and the document. */
  datatype Rendered = Rendered(call: Call, doc: string)

  /** The exceptions the entry points raise themselves. */
  datatype Error = ValueError(message: string) | TypeError(message: string)

  const ContextWithCacheMessage := "use_cache must be False if context is not None"

  /** The keyword `_to_doc` passes the types reference under. */
  const ReferenceName := "reference"

  /** The ending of Python's message when `**context` repeats that keyword;
      the text before it names the callee and varies between versions. */
  const DuplicateReferenceMessage := "got multiple values for keyword argument 'reference'"

  /** The template variables `_to_doc` renders with: `context or {}`. */
  function EffectiveBindings(context: Option<Bindings>): Bindings
  {
    match context
    case None => map[]
    case Some(m) => m
  }

  /** `_to_doc`: the body both routes reach. The memoised route returns a
      stored result of this same function of the same arguments. The call
      `render(reference=reference, **context)` raises `TypeError` when the
      context has its own "reference" entry. */
  function RenderBody(render: Renderer, schema: Schema, templatesPath: Option<string>,
                      context: Option<Bindings>): Result<string, Error>
  {
    var bindings := EffectiveBindings(context);
    if ReferenceName in bindings then Failure(TypeError(DuplicateReferenceMessage))
    else Success(render(schema, templatesPath, bindings))
  }

  /** The guard shared by both entry points: a context is refused whenever
      `use_cache` is truthy. It tests for `None`, not for emptiness. */
  function Guard(context: Option<Bindings>, useCache: UseCache): Result<(), Error>
  {
    if context.Some? && useCache.Truthy() then Failure(ValueError(ContextWithCacheMessage))
    else Success(())
  }

  /** The route `use_cache is True` selects. */
  function RouteFor(useCache: UseCache): Route
  {
    if useCache.IsTrue() then Memoised else Direct
  }

  /** `to_doc`: the HTML document of a schema. */
  function ToDoc(render: Renderer, schema: Schema, templatesPath: Option<string>,
                 context: Option<Bindings>, useCache: UseCache): (r: Result<Rendered, Error>)
    // it fails exactly for a context met by a truthy flag or holding "reference"
    ensures r.Failure? <==> context.Some? && (useCache.Truthy() || ReferenceName in context.value)
    // the guard comes first
    ensures context.Some? && useCache.Truthy() ==> r == Failure(ValueError(ContextWithCacheMessage))
    ensures r.Failure? && !useCache.Truthy() ==> r.error == TypeError(DuplicateReferenceMessage)
    // only `True` itself reaches the memoised wrapper, and never with a context
    ensures r.Success? ==> (r.value.call.route == Memoised <==> useCache == Exactly(true))
    ensures r.Success? && r.value.call.route == Memoised ==> r.value.call.context.None?
    // the caller's arguments reach `_to_doc` unchanged
    ensures r.Success? ==> r.value.call.schema == schema && r.value.call.templatesPath == templatesPath
                           && r.value.call.context == context
    ensures r.Success? ==> r.value.doc == render(schema, templatesPath, EffectiveBindings(context))
  {
    var _ :- Guard(context, useCache);
    var doc :- RenderBody(render, schema, templatesPath, context);
    Success(Rendered(Call(RouteFor(useCache), schema, templatesPath, context), doc))
  }

  /** Where the module lives: `__file__` and `os.sep`. */
  datatype Host = Host(moduleFile: string, sep: Paths.Separator)

  /** The template path `to_md` passes on: the caller's, or the
      "md_templates" directory beside the module. */
  function MdTemplatesPath(host: Host, templatesPath: Option<string>): (path: string)
    ensures templatesPath.Some? ==> path == templatesPath.value
    ensures templatesPath.None? ==>
              Split(path, [host.sep])
                == Paths.AllButLast(Split(host.moduleFile, [host.sep])) + [Paths.MdTemplatesDir]
  {
    match templatesPath
    case Some(p) => p
    case None => Paths.DefaultMdTemplatesPath(host.moduleFile, host.sep)
  }

  /** `to_md`: the Markdown document of a schema. */
  function ToMd(render: Renderer, host: Host, schema: Schema, templatesPath: Option<string>,
                context: Option<Bindings>, useCache: UseCache): (r: Result<Rendered, Error>)
    ensures r.Failure? <==> context.Some? && (useCache.Truthy() || ReferenceName in context.value)
    // the guard comes before the path is derived, whatever the module location
    ensures context.Some? && useCache.Truthy() ==> r == Failure(ValueError(ContextWithCacheMessage))
    ensures r.Failure? && !useCache.Truthy() ==> r.error == TypeError(DuplicateReferenceMessage)
    ensures r.Success? ==> (r.value.call.route == Memoised <==> useCache == Exactly(true))
    ensures r.Success? && r.value.call.route == Memoised ==> r.value.call.context.None?
    ensures r.Success? ==> r.value.call.schema == schema && r.value.call.context == context
    ensures r.Success? ==> r.value.call.templatesPath == Some(MdTemplatesPath(host, templatesPath))
    // the document is the render on that path, cleaned, and only shortened
    ensures r.Success? ==>
              r.value.doc == Markdown.Clean(render(schema, r.value.call.templatesPath, EffectiveBindings(context)))
    ensures r.Success? ==>
              IsSubsequence(r.value.doc, render(schema, r.value.call.templatesPath, EffectiveBindings(context)))
  {
    var _ :- Guard(context, useCache);
    var path := Some(MdTemplatesPath(host, templatesPath));
    var rendered :- RenderBody(render, schema, path, context);
    Markdown.CleanOnlyDeletes(rendered);
    Success(Rendered(Call(RouteFor(useCache), schema, path, context), Markdown.Clean(rendered)))
  }

  // ---------------------------------------------------------------------
  // Properties

  /** An empty context is still a context: with a truthy `use_cache` both
      entry points refuse it, whatever the renderer, module location,
      schema or template path. */
  lemma EmptyContextRefused(render: Renderer, host: Host, schema: Schema,
                            templatesPath: Option<string>, useCache: UseCache)
    requires useCache.Truthy()
    ensures ToDoc(render, schema, templatesPath, Some(map[]), useCache)
         == Failure(ValueError(ContextWithCacheMessage))
    ensures ToMd(render, host, schema, templatesPath, Some(map[]), useCache)
         == Failure(ValueError(ContextWithCacheMessage))
  {
  }

  /** `_to_doc` renders a missing context exactly as an empty one. */
  lemma NoContextRendersAsEmpty(render: Renderer, schema: Schema, templatesPath: Option<string>)
    ensures RenderBody(render, schema, templatesPath, None)
         == RenderBody(render, schema, templatesPath, Some(map[]))
         == Success(render(schema, templatesPath, map[]))
  {
  }

  /** With no context, the cache flag only selects the route: both routes
      reach `_to_doc` with the same arguments and yield the same document. */
  lemma CacheFlagOnlySelectsRoute(render: Renderer, host: Host, schema: Schema,
                                  templatesPath: Option<string>)
    ensures var memoised := ToDoc(render, schema, templatesPath, None, Exactly(true));
            var direct := ToDoc(render, schema, templatesPath, None, Exactly(false));
            && memoised.Success? && direct.Success?
            && memoised.value.call.route == Memoised && direct.value.call.route == Direct
            && memoised.value.call.(route := Direct) == direct.value.call
            && memoised.value.doc == direct.value.doc
    ensures var memoised := ToMd(render, host, schema, templatesPath, None, Exactly(true));
            var direct := ToMd(render, host, schema, templatesPath, None, Exactly(false));
            && memoised.Success? && direct.Success?
            && memoised.value.call.route == Memoised && direct.value.call.route == Direct
            && memoised.value.call.(route := Direct) == direct.value.call
            && memoised.value.doc == direct.value.doc
  {
  }

  /** A context goes through only with caching off, and then by the direct
      route with the context's own variables. */
  lemma ContextNeedsDirectRoute(render: Renderer, host: Host, schema: Schema,
                                templatesPath: Option<string>, context: Bindings, useCache: UseCache)
    ensures var r := ToDoc(render, schema, templatesPath, Some(context), useCache);
            r.Success? ==> r.value.call.route == Direct
                           && r.value.doc == render(schema, templatesPath, context)
    ensures var r := ToMd(render, host, schema, templatesPath, Some(context), useCache);
            r.Success? ==> r.value.call.route == Direct
                           && r.value.doc == Markdown.Clean(render(schema, r.value.call.templatesPath, context))
  {
  }

  /** A context with its own "reference" entry that passes the guard makes
      `_to_doc`'s keyword call raise `TypeError`, in both entry points. */
  lemma ReferenceKeyRaises(render: Renderer, host: Host, schema: Schema,
                           templatesPath: Option<string>, context: Bindings, useCache: UseCache)
    requires ReferenceName in context
    requires !useCache.Truthy()
    ensures ToDoc(render, schema, templatesPath, Some(context), useCache)
         == Failure(TypeError(DuplicateReferenceMessage))
    ensures ToMd(render, host, schema, templatesPath, Some(context), useCache)
         == Failure(TypeError(DuplicateReferenceMessage))
  {
  }

  /** A truthy `use_cache` other than `True` passes the guard when there is
      no context but does not select the cache. */
  lemma TruthyNonTrueBypassesCache(render: Renderer, schema: Schema, templatesPath: Option<string>)
    ensures var r := ToDoc(render, schema, templatesPath, None, OtherValue(true));
            r.Success? && r.value.call.route == Direct
  {
  }

  /** The Markdown entry point is the HTML entry point on the Markdown
      template path, followed by the cleanup. */
  lemma MarkdownIsCleanedDoc(render: Renderer, host: Host, schema: Schema,
                             templatesPath: Option<string>, context: Option<Bindings>,
                             useCache: UseCache)
    ensures var md := ToMd(render, host, schema, templatesPath, context, useCache);
            var html := ToDoc(render, schema, Some(MdTemplatesPath(host, templatesPath)), context, useCache);
            && md.Success? == html.Success?
            && (md.Failure? ==> md.error == html.error)
            && (md.Success? ==> md.value.call == html.value.call
                                && md.value.doc == Markdown.Clean(html.value.doc))
  {
  }
}
