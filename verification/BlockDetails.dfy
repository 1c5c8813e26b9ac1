/** The parts of a captured block that no identity is read from, and how two captures of them merge. */
module BlockDetails {
  import DC = DirectContext
  import CC = ContextCapacity

  const MAX_LINKS: nat := 10
  const MAX_ATTACHMENTS: nat := 3

  datatype Value = Flag(b: bool) | Text(s: string) | Opaque(n: int)
  type Object = map<string, Value>

  datatype Attachment = Attachment(url: string, detail: string)

  datatype Details = Details(
    avatarUrl: string,
    relationshipType: string,
    parentPermalink: string,
    quotedPost: Object,
    directContext: seq<DC.Relation>,
    engagement: Object,
    attachments: seq<Attachment>,
    media: seq<Object>,
    links: seq<Object>,
    mediaRecovery: Object,
    captureQuality: Object)

  function Or(value: string, fallback: string): string { if value == "" then fallback else value }

  function LinkKey(trim: string -> string, link: Object): string {
    var href := if "href" in link && link["href"].Text? then trim(link["href"].s) else "";
    if href != "" then href else if "url" in link && link["url"].Text? then trim(link["url"].s) else ""
  }

  /** A link is named by its target, else by its address; blanks around them do not count. */
  lemma LinkKeyIs(trim: string -> string, link: Object, target: string, address: string)
    requires trim("") == ""
    ensures trim(target) != "" ==> LinkKey(trim, link["href" := Text(target)]) == trim(target)
    ensures trim(target) == "" ==> LinkKey(trim, link["href" := Text(target)]["url" := Text(address)]) == trim(address)
    ensures "href" !in link && "url" !in link ==> LinkKey(trim, link) == "" && LinkKey(trim, link["url" := Text(address)]) == trim(address)
  {
  }

  /** The kept links followed by those of the rest with a new key or none, up to ten. */
  function AddLinks(trim: string -> string, kept: seq<Object>, rest: seq<Object>): seq<Object>
    decreases |rest|
  {
    if rest == [] || |kept| >= MAX_LINKS then kept
    else if LinkKey(trim, rest[0]) != "" && LinkKey(trim, rest[0]) in LinkKeys(trim, kept) then AddLinks(trim, kept, rest[1..])
    else AddLinks(trim, kept + [rest[0]], rest[1..])
  }

  function LinkKeys(trim: string -> string, links: seq<Object>): set<string> { set l <- links :: LinkKey(trim, l) }

  /** The kept attachments followed by those of the rest with a new URL, up to three. */
  function AddAttachments(trim: string -> string, kept: seq<Attachment>, rest: seq<Attachment>): seq<Attachment>
    decreases |rest|
  {
    if rest == [] || |kept| >= MAX_ATTACHMENTS then kept
    else if trim(rest[0].url) == "" || trim(rest[0].url) in Urls(trim, kept) then AddAttachments(trim, kept, rest[1..])
    else AddAttachments(trim, kept + [rest[0]], rest[1..])
  }

  function Urls(trim: string -> string, kept: seq<Attachment>): set<string> { set a <- kept :: trim(a.url) }

  predicate LinksDiffer(trim: string -> string, links: seq<Object>) {
    forall i, j :: 0 <= i < j < |links| && LinkKey(trim, links[i]) == LinkKey(trim, links[j]) ==> LinkKey(trim, links[i]) == ""
  }

  predicate AttachmentsDiffer(trim: string -> string, all: seq<Attachment>) {
    && (forall i :: 0 <= i < |all| ==> trim(all[i].url) != "")
    && (forall i, j :: 0 <= i < j < |all| ==> trim(all[i].url) != trim(all[j].url))
  }

  /** Merged links keep what was kept, have distinct keys, are at most ten, and below that bound lose only links whose key is kept. */
  lemma {:induction false} MergedLinksDiffer(trim: string -> string, kept: seq<Object>, rest: seq<Object>)
    requires LinksDiffer(trim, kept) && |kept| <= MAX_LINKS
    ensures var r := AddLinks(trim, kept, rest);
      && kept <= r && LinksDiffer(trim, r) && |r| <= 10
      && (|r| < 10 ==> forall l <- rest :: l in r || (LinkKey(trim, l) != "" && LinkKey(trim, l) in LinkKeys(trim, r)))
    decreases |rest|
  {
    if rest != [] && |kept| < MAX_LINKS {
      var key := LinkKey(trim, rest[0]);
      var kept' := if key != "" && key in LinkKeys(trim, kept) then kept else kept + [rest[0]];
      assert rest[0] in kept' || (key != "" && key in LinkKeys(trim, kept'));
      MergedLinksDiffer(trim, kept', rest[1..]);
      assert rest == [rest[0]] + rest[1..];
    }
  }

  lemma {:induction false} MergedAttachmentsDiffer(trim: string -> string, kept: seq<Attachment>, rest: seq<Attachment>)
    requires AttachmentsDiffer(trim, kept) && |kept| <= MAX_ATTACHMENTS
    ensures var r := AddAttachments(trim, kept, rest);
      && kept <= r && AttachmentsDiffer(trim, r) && |r| <= 3
      && (|r| < 3 ==> forall a <- rest :: trim(a.url) == "" || trim(a.url) in Urls(trim, r))
    decreases |rest|
  {
    if rest != [] && |kept| < MAX_ATTACHMENTS {
      var key := trim(rest[0].url);
      var kept' := if key == "" || key in Urls(trim, kept) then kept else kept + [rest[0]];
      assert key == "" || key in Urls(trim, kept');
      MergedAttachmentsDiffer(trim, kept', rest[1..]);
      assert rest == [rest[0]] + rest[1..];
    }
  }

  method MergeLinks(trim: string -> string, all: seq<Object>) returns (result: seq<Object>)
    ensures result == AddLinks(trim, [], all)
  {
    result := [];
    var seen: set<string> := {};
    for k := 0 to |all|
      invariant AddLinks(trim, [], all) == AddLinks(trim, result, all[k..])
      invariant |result| < MAX_LINKS
      invariant seen == LinkKeys(trim, result) - {""}
    {
      var key := LinkKey(trim, all[k]);
      if key != "" && key in seen { continue; }
      if key != "" { seen := seen + {key}; }
      result := result + [all[k]];
      if |result| == MAX_LINKS { return; }
    }
  }

  method MergeAttachments(trim: string -> string, all: seq<Attachment>) returns (result: seq<Attachment>)
    ensures result == AddAttachments(trim, [], all)
  {
    result := [];
    var seen: set<string> := {};
    for k := 0 to |all|
      invariant AddAttachments(trim, [], all) == AddAttachments(trim, result, all[k..])
      invariant |result| < MAX_ATTACHMENTS
      invariant seen == Urls(trim, result)
    {
      var key := trim(all[k].url);
      if key == "" || key in seen { continue; }
      seen := seen + {key};
      result := result + [all[k]];
      if |result| >= MAX_ATTACHMENTS { return; }
    }
  }

  function MergeDetails(trim: string -> string, env: DC.Env, previous: Details, current: Details): Details {
    Details(
      avatarUrl := Or(current.avatarUrl, previous.avatarUrl),
      relationshipType := Or(current.relationshipType, previous.relationshipType),
      parentPermalink := Or(current.parentPermalink, previous.parentPermalink),
      quotedPost := previous.quotedPost + current.quotedPost,
      directContext := CC.MergeContexts(env, previous.directContext, current.directContext),
      engagement := previous.engagement + current.engagement,
      attachments := AddAttachments(trim, [], previous.attachments + current.attachments),
      media := if |previous.media| > |current.media| then previous.media else current.media,
      links := AddLinks(trim, [], previous.links + current.links),
      mediaRecovery := if |previous.media| > |current.media| || |current.mediaRecovery| == 0
                       then previous.mediaRecovery else current.mediaRecovery,
      captureQuality := previous.captureQuality + current.captureQuality)
  }

  /** Merging loses no detail that the later capture has, and fills in what it lacks. */
  lemma MergedDetailsAreComplete(trim: string -> string, env: DC.Env, previous: Details, current: Details)
    ensures var m := MergeDetails(trim, env, previous, current);
      && m.avatarUrl == (if current.avatarUrl == "" then previous.avatarUrl else current.avatarUrl)
      && m.relationshipType == (if current.relationshipType == "" then previous.relationshipType else current.relationshipType)
      && m.parentPermalink == (if current.parentPermalink == "" then previous.parentPermalink else current.parentPermalink)
      && Overlays(m.quotedPost, previous.quotedPost, current.quotedPost)
      && Overlays(m.engagement, previous.engagement, current.engagement)
      && Overlays(m.captureQuality, previous.captureQuality, current.captureQuality)
  {
  }

  /** All keys of both, with the later values. */
  ghost predicate Overlays(m: Object, previous: Object, current: Object) {
    && (forall k :: k in m <==> k in previous || k in current)
    && (forall k :: k in current ==> m[k] == current[k])
    && (forall k :: k in previous && k !in current ==> m[k] == previous[k])
  }

  lemma {:induction false} EarlierLinksStay(trim: string -> string, kept: seq<Object>, a: seq<Object>, b: seq<Object>)
    requires LinksDiffer(trim, kept + a) && |kept + a| <= 10
    ensures kept + a <= AddLinks(trim, kept, a + b)
    decreases |a|
  {
    if a == [] {
      assert kept + a == kept && a + b == b;
      LinksPrefix(trim, kept, b);
    } else {
      assert (a + b)[0] == a[0] && (a + b)[1..] == a[1..] + b;
      assert kept + a == (kept + [a[0]]) + a[1..];
      assert forall i :: 0 <= i < |kept| ==> (kept + a)[i] == kept[i];
      assert (kept + a)[|kept|] == a[0];
      EarlierLinksStay(trim, kept + [a[0]], a[1..], b);
    }
  }

  lemma {:induction false} LinksPrefix(trim: string -> string, kept: seq<Object>, rest: seq<Object>)
    ensures kept <= AddLinks(trim, kept, rest)
    decreases |rest|
  {
    if rest == [] {
    } else {
      LinksPrefix(trim, kept, rest[1..]);
      LinksPrefix(trim, kept + [rest[0]], rest[1..]);
    }
  }

  lemma {:induction false} EarlierAttachmentsStay(trim: string -> string, kept: seq<Attachment>, a: seq<Attachment>, b: seq<Attachment>)
    requires AttachmentsDiffer(trim, kept + a) && |kept + a| <= 3
    ensures kept + a <= AddAttachments(trim, kept, a + b)
    decreases |a|
  {
    if a == [] {
      assert kept + a == kept && a + b == b;
      AttachmentsPrefix(trim, kept, b);
    } else {
      assert (a + b)[0] == a[0] && (a + b)[1..] == a[1..] + b;
      assert kept + a == (kept + [a[0]]) + a[1..];
      assert forall i :: 0 <= i < |kept| ==> (kept + a)[i] == kept[i];
      assert (kept + a)[|kept|] == a[0];
      EarlierAttachmentsStay(trim, kept + [a[0]], a[1..], b);
    }
  }

  lemma {:induction false} AttachmentsPrefix(trim: string -> string, kept: seq<Attachment>, rest: seq<Attachment>)
    ensures kept <= AddAttachments(trim, kept, rest)
    decreases |rest|
  {
    if rest == [] {
    } else {
      AttachmentsPrefix(trim, kept, rest[1..]);
      AttachmentsPrefix(trim, kept + [rest[0]], rest[1..]);
    }
  }

  /** The earlier capture's links and attachments come first, and the later one's follow within the bounds. */
  lemma MergedListsAreComplete(trim: string -> string, env: DC.Env, previous: Details, current: Details)
    ensures var m := MergeDetails(trim, env, previous, current);
      && (LinksDiffer(trim, previous.links) && |previous.links| <= 10 ==> previous.links <= m.links)
      && (|m.links| < 10 ==> forall l <- current.links :: l in m.links || (LinkKey(trim, l) != "" && LinkKey(trim, l) in LinkKeys(trim, m.links)))
      && (AttachmentsDiffer(trim, previous.attachments) && |previous.attachments| <= 3 ==> previous.attachments <= m.attachments)
      && (|m.attachments| < 3 ==> forall x <- current.attachments :: trim(x.url) == "" || trim(x.url) in Urls(trim, m.attachments))
      && m.directContext == CC.MergeContexts(env, previous.directContext, current.directContext)
  {
    assert [] + previous.links == previous.links && [] + previous.attachments == previous.attachments;
    if LinksDiffer(trim, previous.links) && |previous.links| <= 10 { EarlierLinksStay(trim, [], previous.links, current.links); }
    if AttachmentsDiffer(trim, previous.attachments) && |previous.attachments| <= 3 {
      EarlierAttachmentsStay(trim, [], previous.attachments, current.attachments);
    }
    MergedLinksDiffer(trim, [], previous.links + current.links);
    MergedAttachmentsDiffer(trim, [], previous.attachments + current.attachments);
    assert forall l <- current.links :: l in previous.links + current.links;
    assert forall x <- current.attachments :: x in previous.attachments + current.attachments;
  }

  /** The longer media list is kept, the later one of two equally long, and the recovery record stays with it where there is one. */
  lemma MergedMediaAreLonger(trim: string -> string, env: DC.Env, previous: Details, current: Details)
    ensures var m := MergeDetails(trim, env, previous, current);
      && |m.media| >= |previous.media| && |m.media| >= |current.media|
      && (|previous.media| <= |current.media| ==> m.media == current.media)
      && (|previous.media| > |current.media| ==> m.media == previous.media && m.mediaRecovery == previous.mediaRecovery)
      && (|previous.media| <= |current.media| && current.mediaRecovery != map[] ==> m.mediaRecovery == current.mediaRecovery)
      && (current.mediaRecovery == map[] ==> m.mediaRecovery == previous.mediaRecovery)
  {
  }
}
