/** The post editor: slug generation, reading-time estimation, the form
    updates that derive fields from the title and the content, and the
    submit rules (src/pages/CreatePost.tsx). */
module CreatePost {
  import opened Wrappers
  import opened Seqs
  import opened Text
  import opened Types

  // ---------------------------------------------------------------------
  // Slugs
  // ---------------------------------------------------------------------

  /** The characters `[a-z0-9]` that survive slugging. */
  predicate IsSlugChar(c: char) {
    'a' <= c <= 'z' || '0' <= c <= '9'
  }

  /** Drops a leading run of characters outside `[a-z0-9]`. */
  function SkipRun(s: string): (r: string)
    ensures |r| <= |s| && r == s[|s| - |r|..]
    ensures forall i :: 0 <= i < |s| - |r| ==> !IsSlugChar(s[i])
    ensures r != [] ==> IsSlugChar(r[0])
  {
    if s != [] && !IsSlugChar(s[0]) then
      var r := SkipRun(s[1..]);
      assert s[1..][|s| - 1 - |r|..] == s[|s| - |r|..];
      assert forall i :: 1 <= i < |s| - |r| ==> s[i] == s[1..][i - 1];
      r
    else s
  }

  /** `.replace(/[^a-z0-9]+/g, '-')`: every maximal run of characters
      outside `[a-z0-9]` becomes a single hyphen. */
  function CollapseRuns(s: string): string
    decreases |s|
  {
    if s == [] then []
    else if IsSlugChar(s[0]) then [s[0]] + CollapseRuns(s[1..])
    else "-" + CollapseRuns(SkipRun(s[1..]))
  }

  /** `.replace(/(^-|-$)/g, '')`: one hyphen is removed at the start and one
      at the end. */
  function TrimHyphens(s: string): string {
    var a := if s != [] && s[0] == '-' then s[1..] else s;
    if a != [] && a[|a| - 1] == '-' then a[..|a| - 1] else a
  }

  /** `generateSlug`. */
  function GenerateSlug(title: string): string {
    TrimHyphens(CollapseRuns(ToLower(title)))
  }

  ghost predicate SlugAlphabet(s: string) {
    forall i :: 0 <= i < |s| ==> IsSlugChar(s[i]) || s[i] == '-'
  }

  ghost predicate NoDoubleHyphen(s: string) {
    forall i :: 0 <= i < |s| - 1 ==> !(s[i] == '-' && s[i + 1] == '-')
  }

  /** A well-formed slug: `[a-z0-9-]` only, no `--`, no hyphen at either end. */
  ghost predicate IsSlug(s: string) {
    && SlugAlphabet(s)
    && NoDoubleHyphen(s)
    && (s != [] ==> s[0] != '-' && s[|s| - 1] != '-')
  }

  lemma {:induction false} CollapseRunsShape(s: string)
    ensures SlugAlphabet(CollapseRuns(s)) && NoDoubleHyphen(CollapseRuns(s))
    ensures s != [] ==>
      (CollapseRuns(s) != [] && CollapseRuns(s)[0] == (if IsSlugChar(s[0]) then s[0] else '-'))
    decreases |s|
  {
    if s == [] {
    } else if IsSlugChar(s[0]) {
      CollapseRunsShape(s[1..]);
      var rest := CollapseRuns(s[1..]);
      assert CollapseRuns(s) == [s[0]] + rest;
    } else {
      var t := SkipRun(s[1..]);
      CollapseRunsShape(t);
      var rest := CollapseRuns(t);
      assert CollapseRuns(s) == "-" + rest;
      assert rest != [] ==> IsSlugChar(rest[0]);
    }
  }

  lemma TrimHyphensShape(s: string)
    requires SlugAlphabet(s) && NoDoubleHyphen(s)
    ensures IsSlug(TrimHyphens(s))
  {
    var a := if s != [] && s[0] == '-' then s[1..] else s;
    assert SlugAlphabet(a) && NoDoubleHyphen(a);
    assert a != [] ==> a[0] != '-';
    if a != [] && a[|a| - 1] == '-' {
      var b := a[..|a| - 1];
      assert b != [] ==> b[|b| - 1] == a[|a| - 2] && b[0] == a[0];
    }
  }

  /** Every generated slug is well formed: its characters are in
      `[a-z0-9-]`, it has no two consecutive hyphens, and it neither starts
      nor ends with a hyphen. */
  lemma GenerateSlugIsSlug(title: string)
    ensures IsSlug(GenerateSlug(title))
  {
    CollapseRunsShape(ToLower(title));
    TrimHyphensShape(CollapseRuns(ToLower(title)));
  }

  lemma {:induction false} SkipRunLetters(s: string)
    ensures Filter(SkipRun(s), IsSlugChar) == Filter(s, IsSlugChar)
  {
    if s != [] && !IsSlugChar(s[0]) {
      SkipRunLetters(s[1..]);
    }
  }

  lemma {:induction false} CollapseRunsLetters(s: string)
    ensures Filter(CollapseRuns(s), IsSlugChar) == Filter(s, IsSlugChar)
    decreases |s|
  {
    if s == [] {
    } else if IsSlugChar(s[0]) {
      CollapseRunsLetters(s[1..]);
      assert CollapseRuns(s) == [s[0]] + CollapseRuns(s[1..]);
    } else {
      CollapseRunsLetters(SkipRun(s[1..]));
      SkipRunLetters(s[1..]);
      assert CollapseRuns(s) == "-" + CollapseRuns(SkipRun(s[1..]));
    }
  }

  lemma TrimHyphensLetters(s: string)
    ensures Filter(TrimHyphens(s), IsSlugChar) == Filter(s, IsSlugChar)
  {
    var a := if s != [] && s[0] == '-' then s[1..] else s;
    if s != [] && s[0] == '-' {
      assert Filter(s, IsSlugChar) == [] + Filter(s[1..], IsSlugChar);
    }
    if a != [] && a[|a| - 1] == '-' {
      var front, last := a[..|a| - 1], [a[|a| - 1]];
      assert a == front + last;
      FilterAppend(front, last, IsSlugChar);
      FilterRejectsAll(last, IsSlugChar);
    }
  }

  /** The letters and digits of the slug are exactly the `[a-z0-9]`
      characters of the lower-cased title, in order. */
  lemma GenerateSlugLetters(title: string)
    ensures Filter(GenerateSlug(title), IsSlugChar) == Filter(ToLower(title), IsSlugChar)
  {
    CollapseRunsLetters(ToLower(title));
    TrimHyphensLetters(CollapseRuns(ToLower(title)));
  }

  /** The slug is empty exactly when the lower-cased title has no letter or
      digit: an empty or all-punctuation title gives `""`. */
  lemma GenerateSlugEmpty(title: string)
    ensures GenerateSlug(title) == [] <==> Filter(ToLower(title), IsSlugChar) == []
  {
    var slug := GenerateSlug(title);
    GenerateSlugIsSlug(title);
    GenerateSlugLetters(title);
    if slug != [] {
      assert IsSlugChar(slug[0]);
      assert slug[0] in Filter(slug, IsSlugChar);
    }
  }

  lemma {:induction false} CollapseRunsFixpoint(s: string)
    requires SlugAlphabet(s) && NoDoubleHyphen(s)
    ensures CollapseRuns(s) == s
    decreases |s|
  {
    if s != [] {
      var t := s[1..];
      assert SlugAlphabet(t) && NoDoubleHyphen(t);
      CollapseRunsFixpoint(t);
      if !IsSlugChar(s[0]) {
        assert t != [] ==> IsSlugChar(t[0]);
        assert SkipRun(t) == t;
      }
    }
  }

  lemma LowerFixpoint(s: string)
    requires SlugAlphabet(s)
    ensures ToLower(s) == s
  {
  }

  /** The strings `generateSlug` leaves unchanged are exactly the
      well-formed slugs; in particular it is idempotent. */
  lemma GenerateSlugFixpoints(s: string)
    ensures GenerateSlug(s) == s <==> IsSlug(s)
  {
    GenerateSlugIsSlug(s);
    if IsSlug(s) {
      LowerFixpoint(s);
      CollapseRunsFixpoint(s);
    }
  }

  lemma GenerateSlugIdempotent(title: string)
    ensures GenerateSlug(GenerateSlug(title)) == GenerateSlug(title)
  {
    GenerateSlugIsSlug(title);
    GenerateSlugFixpoints(GenerateSlug(title));
  }

  // ---------------------------------------------------------------------
  // Reading time
  // ---------------------------------------------------------------------

  const WordsPerMinute: nat := 200

  /** `s.split(/\s+/)`: the pieces between maximal runs of whitespace. As in
      JavaScript, a leading or trailing run yields an empty piece and the
      empty string yields one empty piece. */
  function SplitWs(s: string): (pieces: seq<string>)
    ensures |pieces| >= 1
    decreases |s|
  {
    if s == [] then [[]]
    else if IsSpace(s[0]) then [[]] + SplitWs(TrimStart(s[1..]))
    else
      var rest := SplitWs(s[1..]);
      [[s[0]] + rest[0]] + rest[1..]
  }

  /** `content.trim().split(/\s+/).length`. */
  function WordCount(content: string): (n: nat)
    ensures n >= 1
  {
    |SplitWs(Trim(content))|
  }

  /** `estimateReadingTime`: `Math.max(1, Math.ceil(wordCount / 200))`. The
      result is at least one minute and is the ceiling of the word count
      over 200 words per minute. */
  function EstimateReadingTime(content: string): (minutes: int)
    ensures minutes >= 1
    ensures (minutes - 1) * WordsPerMinute < WordCount(content) <= minutes * WordsPerMinute
  {
    var words := WordCount(content);
    var ceiling := (words + WordsPerMinute - 1) / WordsPerMinute;
    if ceiling < 1 then 1 else ceiling
  }

  /** Empty or whitespace-only content still splits into one (empty) token,
      and so reads in one minute. */
  lemma ReadingTimeOfBlank(content: string)
    requires IsBlank(content)
    ensures WordCount(content) == 1 && EstimateReadingTime(content) == 1
  {
  }

  /** For text without whitespace at either end, every piece of the split is
      a non-empty word without whitespace. */
  lemma {:induction false} SplitWsWords(s: string)
    requires s != [] ==> !IsSpace(s[|s| - 1])
    ensures forall k :: 0 <= k < |SplitWs(s)| ==> NoSpace(SplitWs(s)[k])
    ensures forall k :: 1 <= k < |SplitWs(s)| ==> SplitWs(s)[k] != []
    ensures s != [] && !IsSpace(s[0]) ==> SplitWs(s)[0] != []
    decreases |s|
  {
    if s == [] {
    } else if IsSpace(s[0]) {
      var t := TrimStart(s[1..]);
      assert t != [] && t[|t| - 1] == s[|s| - 1];
      SplitWsWords(t);
    } else {
      var t := s[1..];
      assert t != [] ==> t[|t| - 1] == s[|s| - 1];
      SplitWsWords(t);
      var rest := SplitWs(t);
      assert SplitWs(s) == [[s[0]] + rest[0]] + rest[1..];
      assert NoSpace([s[0]] + rest[0]);
    }
  }

  /** The word count of non-blank content is the number of its
      whitespace-separated words. */
  lemma WordCountCountsWords(content: string)
    requires !IsBlank(content)
    ensures forall k :: 0 <= k < |SplitWs(Trim(content))| ==>
      SplitWs(Trim(content))[k] != [] && NoSpace(SplitWs(Trim(content))[k])
  {
    SplitWsWords(Trim(content));
  }

  /** Words joined by single spaces. */
  function JoinWords(words: seq<string>): string
    requires |words| >= 1
  {
    if |words| == 1 then words[0] else words[0] + " " + JoinWords(words[1..])
  }

  lemma {:induction false} SplitWsPrefix(w: string, s: string)
    requires NoSpace(w)
    ensures SplitWs(w + s) == [w + SplitWs(s)[0]] + SplitWs(s)[1..]
    decreases |w|
  {
    if w != [] {
      assert (w + s)[0] == w[0] && (w + s)[1..] == w[1..] + s;
      SplitWsPrefix(w[1..], s);
      assert [w[0]] + (w[1..] + SplitWs(s)[0]) == w + SplitWs(s)[0];
    } else {
      var r := SplitWs(s);
      assert w + s == s && w + r[0] == r[0];
      assert r == [r[0]] + r[1..];
    }
  }

  /** A space followed by a word-led string splits into an empty piece and
      the pieces of that string. */
  lemma SplitWsAfterSpace(rest: string)
    requires rest != [] && !IsSpace(rest[0])
    ensures SplitWs(" " + rest) == [[]] + SplitWs(rest)
  {
    var tail := " " + rest;
    assert tail[1..] == rest;
  }

  /** Words joined by spaces neither start nor end with whitespace. */
  lemma {:induction false} JoinWordsEnds(words: seq<string>)
    requires |words| >= 1
    requires forall k :: 0 <= k < |words| ==> words[k] != [] && NoSpace(words[k])
    ensures JoinWords(words) != [] && !IsSpace(JoinWords(words)[0])
    ensures !IsSpace(JoinWords(words)[|JoinWords(words)| - 1])
    decreases |words|
  {
    if |words| > 1 {
      var rest := JoinWords(words[1..]);
      JoinWordsEnds(words[1..]);
      var joined := words[0] + " " + rest;
      assert JoinWords(words) == joined;
      assert joined[0] == words[0][0];
      assert joined[|joined| - 1] == rest[|rest| - 1];
    }
  }

  /** One word, a space, and a word-led rest split into the word followed
      by the pieces of the rest. */
  lemma SplitWordSpace(w: string, rest: string)
    requires w != [] && NoSpace(w)
    requires rest != [] && !IsSpace(rest[0])
    ensures SplitWs(w + " " + rest) == [w] + SplitWs(rest)
  {
    var tail := " " + rest;
    assert w + " " + rest == w + tail;
    SplitWsAfterSpace(rest);
    var pieces := SplitWs(tail);
    assert pieces == [[]] + SplitWs(rest);
    assert pieces[0] == [] && pieces[1..] == SplitWs(rest);
    SplitWsPrefix(w, tail);
    var whole := SplitWs(w + tail);
    assert whole == [w + pieces[0]] + pieces[1..];
    assert w + pieces[0] == w;
    assert whole == [w] + SplitWs(rest);
  }

  /** Splitting words joined by single spaces gives the words back. */
  lemma {:induction false} SplitJoinWords(words: seq<string>)
    requires |words| >= 1
    requires forall k :: 0 <= k < |words| ==> words[k] != [] && NoSpace(words[k])
    ensures SplitWs(JoinWords(words)) == words
    decreases |words|
  {
    var w := words[0];
    if |words| == 1 {
      SplitWsPrefix(w, []);
      assert w + [] == w;
    } else {
      var others := words[1..];
      forall k | 0 <= k < |others| ensures others[k] != [] && NoSpace(others[k]) {
        assert others[k] == words[k + 1];
      }
      SplitJoinWords(others);
      JoinWordsEnds(others);
      SplitWordSpace(w, JoinWords(others));
      assert words == [w] + others;
    }
  }

  /** Conversely, text made of `n` words separated by single spaces has word
      count `n`; so 450 words read in 3 minutes. */
  lemma ReadingTimeOfWords(words: seq<string>)
    requires |words| >= 1
    requires forall k :: 0 <= k < |words| ==> words[k] != [] && NoSpace(words[k])
    ensures WordCount(JoinWords(words)) == |words|
    ensures |words| == 450 ==> EstimateReadingTime(JoinWords(words)) == 3
  {
    SplitJoinWords(words);
    JoinWordsEnds(words);
    TrimUnchanged(JoinWords(words));
  }

  // ---------------------------------------------------------------------
  // The editor form
  // ---------------------------------------------------------------------

  /** The two statuses the editor can submit with. */
  type EditorStatus = s: PostStatus | s == Draft || s == Published witness Draft

  datatype PostForm = PostForm(
    title: string,
    slug: string,
    content: string,
    excerpt: string,
    cover_image: string,
    status: EditorStatus,
    is_premium: bool,
    seo_title: string,
    seo_description: string,
    reading_time: int)

  const InitialForm := PostForm("", "", "", "", "", Draft, false, "", "", 5)

  /** `{ ...formData, status, author_id, published_at }`: the form's fields
      with the chosen status, the user as author, and a publication time when
      and only when the post is published. */
  function PostData(form: PostForm, status: EditorStatus, authorId: Id, now: Timestamp): (d: NewPost)
    ensures d.author_id == authorId && d.status == status
    ensures d.published_at.Some? <==> status == Published
    ensures d.title == form.title && d.slug == form.slug && d.content == form.content
    ensures d.excerpt == form.excerpt && d.cover_image == form.cover_image
    ensures d.is_premium == form.is_premium && d.reading_time == form.reading_time
    ensures d.seo_title == form.seo_title && d.seo_description == form.seo_description
  {
    NewPost(form.title, form.slug, form.content, form.excerpt, form.cover_image, status,
            form.is_premium, form.seo_title, form.seo_description, form.reading_time,
            authorId, if status == Published then Some(now) else None)
  }

  datatype SubmitOutcome =
    | MissingTitle             // "Please enter a title"
    | MissingContent           // "Please enter content"
    | NotSignedIn              // `user!.id` throws; caught by the handler
    | Requested(data: NewPost) // `createPost(postData)` is awaited

  class PostEditor {
    var form: PostForm
    var loading: bool
    var categories: seq<Category>
    var redirectedTo: Option<string>

    constructor ()
      ensures form == InitialForm && !loading && categories == [] && redirectedTo == None
    {
      form := InitialForm;
      loading := false;
      categories := [];
      redirectedTo := None;
    }

    /** The mount effect: users without creator access are sent home and
        no categories are loaded. */
    method Mount(user: Option<Id>, profile: Option<Profile>, fetched: seq<Category>)
      modifies this`categories, this`redirectedTo
      ensures HasCreatorAccess(user, profile) ==>
        categories == fetched && redirectedTo == old(redirectedTo)
      ensures !HasCreatorAccess(user, profile) ==>
        categories == old(categories) && redirectedTo == Some("/")
    {
      if !HasCreatorAccess(user, profile) {
        redirectedTo := Some("/");
        return;
      }
      categories := fetched;
    }

    /** `handleTitleChange`: the title also sets the slug and the SEO title;
        nothing else in the form changes. */
    method HandleTitleChange(title: string)
      modifies this`form
      ensures form == old(form).(title := title, slug := GenerateSlug(title), seo_title := title)
    {
      form := form.(title := title, slug := GenerateSlug(title), seo_title := title);
    }

    /** `handleContentChange`: the content also sets the reading time;
        nothing else in the form changes. */
    method HandleContentChange(content: string)
      modifies this`form
      ensures form == old(form).(content := content, reading_time := EstimateReadingTime(content))
    {
      form := form.(content := content, reading_time := EstimateReadingTime(content));
    }

    /** `handleSubmit` up to the awaited `createPost`: a blank title or
        content is rejected first and leaves the page as it is; otherwise
        `loading` is raised and the post data is built. Without a signed-in
        user the property access throws, the handler catches it, and
        `loading` is lowered again. */
    method StartSubmit(status: EditorStatus, user: Option<Id>, now: Timestamp) returns (outcome: SubmitOutcome)
      modifies this`loading
      ensures IsBlank(form.title) ==> outcome == MissingTitle && loading == old(loading)
      ensures !IsBlank(form.title) && IsBlank(form.content) ==>
        outcome == MissingContent && loading == old(loading)
      ensures !IsBlank(form.title) && !IsBlank(form.content) && user.None? ==>
        outcome == NotSignedIn && !loading
      ensures !IsBlank(form.title) && !IsBlank(form.content) && user.Some? ==>
        outcome == Requested(PostData(form, status, user.value, now)) && loading
    {
      if IsBlank(form.title) {
        return MissingTitle;
      }
      if IsBlank(form.content) {
        return MissingContent;
      }
      loading := true;
      if user.None? {
        loading := false;
        return NotSignedIn;
      }
      outcome := Requested(PostData(form, status, user.value, now));
    }

    /** The continuation after `createPost`: a created post opens its page;
        on every path `loading` ends false. A thrown error behaves like a
        failed creation. */
    method FinishSubmit(created: Option<Post>)
      modifies this`loading, this`redirectedTo
      ensures !loading
      ensures redirectedTo == if created.Some? then Some("/post/" + created.value.slug) else old(redirectedTo)
    {
      if created.Some? {
        redirectedTo := Some("/post/" + created.value.slug);
      }
      loading := false;
    }
  }
}
