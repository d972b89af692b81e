/** The article form of the admin panel (components/dashboard/article-editor.tsx):
    the fields start from the article being edited, an image can be chosen
    and removed, and a submit either raises an alert or hands a multipart
    form to the page's `onSubmit`.

    The rich-text editor is the pair (html, isEmpty) it reports, or nothing
    while it is not ready; the `FormData` is the sequence of its (name,
    value) entries in the order they were appended. */
module ArticleEditor {
  import opened Types
  import opened Text

  /** A file picked in the browser's file input. */
  datatype ImageFile = ImageFile(name: string)

  /** What `editor.getHTML()` and `editor.isEmpty` report. */
  datatype EditorContent = EditorContent(html: string, isEmpty: bool)

  datatype FieldValue = TextValue(text: string) | FileValue(file: ImageFile)

  /** One `formData.append(name, value)`. */
  datatype Field = Field(name: string, value: FieldValue)

  type Form = seq<Field>

  /** What a submit does: alert with a message, or call `onSubmit` with a form. */
  datatype Outcome = Alert(message: string) | Submitted(form: Form)

  const TitleRequired := "Title is required"
  const ContentRequired := "Content is required"

  /** The names of a form's entries, in order. */
  function Names(form: Form): (names: seq<string>)
    ensures |names| == |form|
    ensures forall i :: 0 <= i < |form| ==> names[i] == form[i].name
  {
    seq(|form|, i requires 0 <= i < |form| => form[i].name)
  }

  /** `formData.get(name)`: the value of the first entry called `name`. */
  function Lookup(form: Form, name: string): (v: Option<FieldValue>)
    ensures v.None? <==> name !in Names(form)
    ensures v.Some? ==> Field(name, v.value) in form
    ensures v.Some? ==>
      exists i :: 0 <= i < |form| && form[i] == Field(name, v.value) && name !in Names(form[..i])
    decreases |form|
  {
    if form == [] then None
    else if form[0].name == name then
      assert form[0] == Field(name, form[0].value) && Names(form[..0]) == [];
      Some(form[0].value)
    else
      assert Names(form) == [form[0].name] + Names(form[1..]);
      var rest := Lookup(form[1..], name);
      if rest.Some? then
        var i :| 0 <= i < |form[1..]| && form[1..][i] == Field(name, rest.value) && name !in Names(form[1..][..i]);
        assert form[..i + 1] == [form[0]] + form[1..][..i];
        assert Names(form[..i + 1]) == [form[0].name] + Names(form[1..][..i]);
        rest
      else rest
  }

  /** `String(published)`. */
  function BoolString(b: bool): (s: string)
    ensures s == "true" || s == "false"
    ensures (s == "true") <==> b
  {
    if b then "true" else "false"
  }

  /** `!editor?.getHTML() || editor.isEmpty`: no editor yet, an empty
      document, or one the editor itself reports as empty. */
  predicate ContentMissing(editor: Option<EditorContent>) {
    editor.None? || editor.value.html == [] || editor.value.isEmpty
  }

  /** The entry for the image: one `featured_image` entry when a file is
      selected, none otherwise. */
  function ImageEntries(imageFile: Option<ImageFile>): Form {
    if imageFile.Some? then [Field("featured_image", FileValue(imageFile.value))] else []
  }

  /** The form an accepted submit builds, entry by entry. */
  function FormFor(title: string, html: string, excerpt: string, published: bool,
                   imageFile: Option<ImageFile>): Form {
    [Field("title", TextValue(title))] +
    [Field("content", TextValue(html))] +
    [Field("excerpt", TextValue(excerpt))] +
    [Field("published", TextValue(BoolString(published)))] +
    ImageEntries(imageFile)
  }

  /** `handleSubmit(published)`. The title is checked first and only for
      blankness; then the content. An accepted submit hands over the form
      of title (as typed, untrimmed), content, excerpt, published flag and
      the image when one is selected. */
  function Submit(title: string, excerpt: string, imageFile: Option<ImageFile>,
                  published: bool, editor: Option<EditorContent>): (o: Outcome)
    ensures IsBlank(title) <==> o == Alert(TitleRequired)
    ensures !IsBlank(title) ==> (ContentMissing(editor) <==> o == Alert(ContentRequired))
    ensures o.Submitted? <==> !IsBlank(title) && !ContentMissing(editor)
    ensures o.Submitted? ==> o.form == FormFor(title, editor.value.html, excerpt, published, imageFile)
  {
    if IsBlank(title) then Alert(TitleRequired)
    else if ContentMissing(editor) then Alert(ContentRequired)
    else Submitted(FormFor(title, editor.value.html, excerpt, published, imageFile))
  }

  /** Looking up a name in a form that starts with `f`. */
  lemma LookupCons(f: Field, rest: Form, name: string)
    ensures Lookup([f] + rest, name) == if f.name == name then Some(f.value) else Lookup(rest, name)
  {
    assert ([f] + rest)[1..] == rest;
  }

  /** The submitted form has the entries title, content, excerpt, published
      and, only with a selected image, featured_image, in that order. */
  lemma FormNames(title: string, html: string, excerpt: string, published: bool,
                  imageFile: Option<ImageFile>)
    ensures Names(FormFor(title, html, excerpt, published, imageFile)) ==
      ["title", "content", "excerpt", "published"] + (if imageFile.Some? then ["featured_image"] else [])
  {
    var form := FormFor(title, html, excerpt, published, imageFile);
    assert |form| == 4 + |ImageEntries(imageFile)|;
  }

  /** Reading the submitted form back gives each value that went in: the
      title as typed, the editor's html, the excerpt, the published flag as
      "true" or "false", and the selected image if and only if there is one. */
  lemma FormFields(title: string, html: string, excerpt: string, published: bool,
                   imageFile: Option<ImageFile>)
    ensures var form := FormFor(title, html, excerpt, published, imageFile);
      && Lookup(form, "title") == Some(TextValue(title))
      && Lookup(form, "content") == Some(TextValue(html))
      && Lookup(form, "excerpt") == Some(TextValue(excerpt))
      && Lookup(form, "published") == Some(TextValue(BoolString(published)))
      && (imageFile.Some? ==> Lookup(form, "featured_image") == Some(FileValue(imageFile.value)))
      && (imageFile.None? ==> Lookup(form, "featured_image").None?)
  {
    var e := ImageEntries(imageFile);
    var d := [Field("published", TextValue(BoolString(published)))] + e;
    var c := [Field("excerpt", TextValue(excerpt))] + d;
    var b := [Field("content", TextValue(html))] + c;
    var a := [Field("title", TextValue(title))] + b;
    assert FormFor(title, html, excerpt, published, imageFile) == a;
    LookupCons(a[0], b, "title");
    LookupCons(a[0], b, "content");
    LookupCons(b[0], c, "content");
    LookupCons(a[0], b, "excerpt");
    LookupCons(b[0], c, "excerpt");
    LookupCons(c[0], d, "excerpt");
    LookupCons(a[0], b, "published");
    LookupCons(b[0], c, "published");
    LookupCons(c[0], d, "published");
    LookupCons(d[0], e, "published");
    LookupCons(a[0], b, "featured_image");
    LookupCons(b[0], c, "featured_image");
    LookupCons(c[0], d, "featured_image");
    LookupCons(d[0], e, "featured_image");
    if imageFile.Some? {
      LookupCons(e[0], [], "featured_image");
      assert e == [e[0]] + [];
    }
  }

  /** The title is sent exactly as typed: surrounding spaces pass the validation
      and stay in the form. */
  lemma TitleSentUntrimmed(editor: EditorContent)
    requires editor.html != [] && !editor.isEmpty
    ensures var o := Submit(" Flu ", "", None, true, Some(editor));
      o.Submitted? && Lookup(o.form, "title") == Some(TextValue(" Flu "))
  {
    assert !IsBlank(" Flu ") by {
      assert !IsWhitespace(" Flu "[1]);
      BlankIffAllWhitespace(" Flu ");
    }
    FormFields(" Flu ", editor.html, "", true, None);
  }

  /** `process.env.NEXT_PUBLIC_API_URL?.replace("/api", "")` as it lands in a
      template literal: the first "/api" removed, or "undefined" when the
      variable is not set. */
  function ApiBase(apiUrl: Option<string>): (base: string)
    ensures apiUrl.Some? && !Includes(apiUrl.value, "/api") ==> base == apiUrl.value
    ensures apiUrl.None? ==> base == "undefined"
  {
    if apiUrl.Some? then
      if !Includes(apiUrl.value, "/api") then
        ReplaceFirstAbsent(apiUrl.value, "/api", "");
        ReplaceFirst(apiUrl.value, "/api", "")
      else ReplaceFirst(apiUrl.value, "/api", "")
    else "undefined"
  }

  /** For an API address `host + "/api" + rest` whose host has no "/api",
      the base is `host + rest`: an occurrence can neither lie inside the
      host nor straddle its end, since "/api" has no other '/'. */
  lemma ApiBaseStripsApi(host: string, rest: string)
    requires !Includes(host, "/api")
    ensures ApiBase(Some(host + "/api" + rest)) == host + rest
  {
    var s := host + "/api" + rest;
    assert s[|host|..|host| + 4] == "/api" && s[|host|] == '/';
    IncludesIffOccurs(host, "/api");
    forall j | 0 <= j < |host| ensures !OccursAt(s, "/api", j) {
      if j + 4 <= |host| {
        assert host[j..j + 4] == s[j..j + 4] && !OccursAt(host, "/api", j);
      } else {
        var k := |host| - j;
        assert s[j..j + 4][k] == '/' && "/api"[k] != '/';
      }
    }
    ReplaceFirstAt(s, "/api", "", |host|);
    assert s[..|host|] == host && s[|host| + 4..] == rest;
  }

  /** The preview shown at first: the article's image under the API's base
      address, or none when there is no article or its image is empty or null. */
  function InitialPreview(article: Option<Article>, apiUrl: Option<string>): (p: Option<string>)
    ensures p.Some? <==> article.Some? && article.value.featuredImage.Some? && article.value.featuredImage.value != []
    ensures p.Some? ==> p.value == ApiBase(apiUrl) + article.value.featuredImage.value
  {
    if article.Some? && article.value.featuredImage.Some? && article.value.featuredImage.value != [] then
      Some(ApiBase(apiUrl) + article.value.featuredImage.value)
    else None
  }

  /** `article?.title || ""`, and likewise for the nullable excerpt. */
  function InitialTitle(article: Option<Article>): (t: string)
    ensures article.None? ==> t == []
    ensures article.Some? ==> t == article.value.title
  {
    if article.Some? then article.value.title else []
  }

  function InitialExcerpt(article: Option<Article>): (e: string)
    ensures article.None? || article.value.excerpt.None? ==> e == []
    ensures article.Some? && article.value.excerpt.Some? ==> e == article.value.excerpt.value
  {
    if article.Some? && article.value.excerpt.Some? then article.value.excerpt.value else []
  }

  /** The editor's state: the two text fields, the chosen image and its
      preview, and, standing for the browser and the page, the alerts shown
      and the forms handed to `onSubmit`. */
  class Editor {
    var title: string
    var excerpt: string
    var imageFile: Option<ImageFile>
    var imagePreview: Option<string>
    var alerts: seq<string>
    var submitted: seq<Form>

    constructor(article: Option<Article>, apiUrl: Option<string>)
      ensures title == InitialTitle(article) && excerpt == InitialExcerpt(article)
      ensures imageFile.None? && imagePreview == InitialPreview(article, apiUrl)
      ensures alerts == [] && submitted == []
    {
      title := InitialTitle(article);
      excerpt := InitialExcerpt(article);
      imageFile := None;
      imagePreview := InitialPreview(article, apiUrl);
      alerts, submitted := [], [];
    }

    method SetTitle(value: string)
      modifies this
      ensures title == value
      ensures excerpt == old(excerpt) && imageFile == old(imageFile) && imagePreview == old(imagePreview)
      ensures alerts == old(alerts) && submitted == old(submitted)
    {
      title := value;
    }

    method SetExcerpt(value: string)
      modifies this
      ensures excerpt == value
      ensures title == old(title) && imageFile == old(imageFile) && imagePreview == old(imagePreview)
      ensures alerts == old(alerts) && submitted == old(submitted)
    {
      excerpt := value;
    }

    /** `handleImageChange`: the first selected file, if any, becomes the
        image; an empty or missing selection changes nothing. The preview
        follows when the file has been read (`PreviewLoaded`). */
    method HandleImageChange(files: Option<seq<ImageFile>>)
      modifies this
      ensures files.Some? && files.value != [] ==> imageFile == Some(files.value[0])
      ensures files.None? || files.value == [] ==> imageFile == old(imageFile)
      ensures title == old(title) && excerpt == old(excerpt) && imagePreview == old(imagePreview)
      ensures alerts == old(alerts) && submitted == old(submitted)
    {
      if files.Some? && files.value != [] {
        imageFile := Some(files.value[0]);
      }
    }

    /** The file reader has produced the data URL of the chosen file. */
    method PreviewLoaded(dataUrl: string)
      modifies this
      ensures imagePreview == Some(dataUrl)
      ensures title == old(title) && excerpt == old(excerpt) && imageFile == old(imageFile)
      ensures alerts == old(alerts) && submitted == old(submitted)
    {
      imagePreview := Some(dataUrl);
    }

    /** The remove button: forget both the file and its preview. */
    method RemoveImage()
      modifies this
      ensures imageFile.None? && imagePreview.None?
      ensures title == old(title) && excerpt == old(excerpt)
      ensures alerts == old(alerts) && submitted == old(submitted)
    {
      imageFile := None;
      imagePreview := None;
    }

    /** `handleSubmit(published)`: alert and stop, or append the fields one
        by one and call `onSubmit` once with the form. */
    method HandleSubmit(published: bool, editor: Option<EditorContent>)
      modifies this
      ensures Submit(old(title), old(excerpt), old(imageFile), published, editor).Alert? ==>
        && alerts == old(alerts) + [Submit(old(title), old(excerpt), old(imageFile), published, editor).message]
        && submitted == old(submitted)
      ensures Submit(old(title), old(excerpt), old(imageFile), published, editor).Submitted? ==>
        && submitted == old(submitted) + [Submit(old(title), old(excerpt), old(imageFile), published, editor).form]
        && alerts == old(alerts)
      ensures title == old(title) && excerpt == old(excerpt)
      ensures imageFile == old(imageFile) && imagePreview == old(imagePreview)
    {
      ghost var outcome := Submit(title, excerpt, imageFile, published, editor);
      if IsBlank(title) {
        alerts := alerts + [TitleRequired];
        assert outcome == Alert(TitleRequired);
        return;
      }
      if editor.None? || editor.value.html == [] || editor.value.isEmpty {
        alerts := alerts + [ContentRequired];
        assert outcome == Alert(ContentRequired);
        return;
      }
      var formData: Form := [];
      formData := formData + [Field("title", TextValue(title))];
      assert formData == [Field("title", TextValue(title))];
      formData := formData + [Field("content", TextValue(editor.value.html))];
      formData := formData + [Field("excerpt", TextValue(excerpt))];
      formData := formData + [Field("published", TextValue(BoolString(published)))];
      if imageFile.Some? {
        formData := formData + [Field("featured_image", FileValue(imageFile.value))];
      }
      assert formData == FormFor(title, editor.value.html, excerpt, published, imageFile);
      assert outcome == Submitted(formData);
      submitted := submitted + [formData];
    }
  }
}
