/** The article as read from its JSON file, with the fields the cleaner computes. */
module ArticleModel {
  import opened Wrappers
  import opened JavaStrings

  datatype Author = Author(displayName: Option<string>, id: Option<string>, username: Option<string>)

  /** Every field may be null. The last five are set by the cleaner. */
  datatype Article = Article(
    id: Option<string>,
    postNumber: Option<int>,
    title: Option<string>,
    subtitle: Option<string>,
    htmlBody: Option<string>,
    author: Option<Author>,
    cleanText: Option<string>,
    fullText: Option<string>,
    originalLength: Option<int>,
    cleanedLength: Option<int>,
    tokenEstimate: Option<int>)

  /** `new Article()`. */
  function EmptyArticle(): (a: Article)
    ensures a.id.None? && a.title.None? && a.cleanText.None? && a.fullText.None?
    ensures a.originalLength.None? && a.cleanedLength.None? && a.tokenEstimate.None?
  {
    Article(None, None, None, None, None, None, None, None, None, None, None)
  }

  /** `getAuthorDisplayName()`: null without an author, else the author's display name. */
  function GetAuthorDisplayName(a: Article): (r: Option<string>)
    ensures a.author.None? ==> r.None?
    ensures a.author.Some? ==> r == a.author.value.displayName
  {
    match a.author
    case None => None
    case Some(au) => au.displayName
  }

  /** `getFullTitle()`: the title alone when the subtitle is null or empty, else
      title + ": " + subtitle (a null title printing as "null"). */
  function GetFullTitle(a: Article): (r: Option<string>)
    ensures a.subtitle.None? || a.subtitle == Some("") ==> r == a.title
    ensures a.subtitle.Some? && a.subtitle.value != "" ==> r.Some?
  {
    if a.subtitle.Some? && a.subtitle.value != "" then
      Some(NullableText(a.title) + ": " + a.subtitle.value)
    else a.title
  }

  /** An empty subtitle is treated exactly like a missing one. */
  lemma EmptySubtitleIsAbsent(a: Article)
    ensures GetFullTitle(a.(subtitle := Some(""))) == GetFullTitle(a.(subtitle := None))
  {
  }

  /** With a subtitle, the full title is the title ("null" when absent), the separator ": ",
      then the subtitle. */
  lemma FullTitleLayout(a: Article)
    requires a.subtitle.Some? && a.subtitle.value != ""
    ensures var t := NullableText(a.title);
      var r := GetFullTitle(a).value;
      |r| == |t| + 2 + |a.subtitle.value|
      && r[..|t|] == t
      && r[|t|..|t| + 2] == ": "
      && r[|t| + 2..] == a.subtitle.value
  {
  }
}
