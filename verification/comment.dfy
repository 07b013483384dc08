/**
  The comment feature gate of `classes/comment.php`: which comment features
  the stored `joaogrilo_comments` option (and WordPress's `page_comments`
  flag) switches on, and the small transforms those features install.
 */
module CommentGate {
  import opened Php
  import opened WordPress

  /** The option holding the comment checkboxes, and the default `get_option`
      is given for it. */
  const CommentsOption: string := "joaogrilo_comments"
  const CommentsFallback: Value := Str("Nothing Found")

  /** The seven checkbox numbers. */
  const AllBoxes: set<int> := {1, 2, 3, 4, 5, 6, 7}

  /** The admin page the redirect feature guards. */
  const CommentsPage: string := "edit-comments.php"

  /** The key of checkbox `n`: `comments-checkbox-1` .. `comments-checkbox-7`. */
  function CheckboxKey(n: int): string
    requires 1 <= n <= 7
  {
    "comments-checkbox-" + [('0' as int + n) as char]
  }

  lemma CheckboxKeyInjective(n: int, m: int)
    requires 1 <= n <= 7 && 1 <= m <= 7
    ensures CheckboxKey(n) == CheckboxKey(m) ==> n == m
  {
    if CheckboxKey(n) == CheckboxKey(m) {
      assert CheckboxKey(n)[18] == CheckboxKey(m)[18];
    }
  }

  datatype Feature =
    | DisablePostTypeSupport   // checkbox 1: `admin_init` strips comment support
    | CloseCommentsAndPings    // checkbox 2 or `page_comments`: `comments_open`/`pings_open` forced false
    | HideExistingComments     // checkbox 3: `comments_array` emptied
    | RemoveCommentsMenu       // checkbox 4: the comments menu item removed
    | RedirectCommentsPage     // checkbox 5: the comments admin page redirects
    | RemoveDashboardWidget    // checkbox 6: the recent-comments dashboard box removed
    | RemoveAdminBarLink       // checkbox 7: the admin bar comments link removed

  /** What the host answers that the gate consults: whether `remove_menu`
      exists and whether the admin bar is showing. */
  datatype Host = Host(removeMenuExists: bool, adminBarShowing: bool)

  /** The stored comment settings, or the fallback string when the option
      does not exist. */
  function CommentsValue(store: OptionsTable): Value
  {
    GetOption(store, CommentsOption, CommentsFallback)
  }

  /** Whether WordPress's own `page_comments` setting reads as truthy. */
  predicate PageComments(store: OptionsTable)
  {
    Truthy(GetOption(store, "page_comments", Bool(false)))
  }

  /** The decision table from the checkboxes considered on to the features:
      each box switches on its own feature, `page_comments` also closes
      comments, and boxes 4 and 7 only act when the host allows it. */
  function Decide(on: set<int>, pageComments: bool, host: Host): (fs: set<Feature>)
    ensures DisablePostTypeSupport in fs <==> 1 in on
    ensures CloseCommentsAndPings in fs <==> pageComments || 2 in on
    ensures HideExistingComments in fs <==> 3 in on
    ensures RemoveCommentsMenu in fs <==> 4 in on && host.removeMenuExists
    ensures RedirectCommentsPage in fs <==> 5 in on
    ensures RemoveDashboardWidget in fs <==> 6 in on
    ensures RemoveAdminBarLink in fs <==> 7 in on && host.adminBarShowing
  {
    (if 1 in on then {DisablePostTypeSupport} else {})
    + (if pageComments || 2 in on then {CloseCommentsAndPings} else {})
    + (if 3 in on then {HideExistingComments} else {})
    + (if 4 in on && host.removeMenuExists then {RemoveCommentsMenu} else {})
    + (if 5 in on then {RedirectCommentsPage} else {})
    + (if 6 in on then {RemoveDashboardWidget} else {})
    + (if 7 in on && host.adminBarShowing then {RemoveAdminBarLink} else {})
  }

  /** The test as written: whether the box's key is set, compared loosely
      with the string `'on'`. */
  predicate GateAsWritten(v: Value, n: int)
    requires 1 <= n <= 7
  {
    LooseEqualsBool(Isset(v, CheckboxKey(n)), Str("on"))
  }

  function CheckedAsWritten(v: Value): set<int>
  {
    set n | 1 <= n <= 7 && GateAsWritten(v, n)
  }

  /** The loose comparison with `'on'` reduces to `isset`. */
  lemma CheckedAsWrittenIsIsset(v: Value)
    ensures forall n :: 1 <= n <= 7 ==> (n in CheckedAsWritten(v) <==> Isset(v, CheckboxKey(n)))
  {
    assert Truthy(Str("on"));
  }

  /** `comment_functions`: the features switched on. The loose comparison
      with `'on'` collapses to `isset`, so a box counts as on whenever its key
      is stored with a non-null value, `'off'` included. */
  function EnabledFeatures(store: OptionsTable, host: Host): (fs: set<Feature>)
    ensures DisablePostTypeSupport in fs <==> Isset(CommentsValue(store), CheckboxKey(1))
    ensures CloseCommentsAndPings in fs <==> PageComments(store) || Isset(CommentsValue(store), CheckboxKey(2))
    ensures HideExistingComments in fs <==> Isset(CommentsValue(store), CheckboxKey(3))
    ensures RemoveCommentsMenu in fs <==> Isset(CommentsValue(store), CheckboxKey(4)) && host.removeMenuExists
    ensures RedirectCommentsPage in fs <==> Isset(CommentsValue(store), CheckboxKey(5))
    ensures RemoveDashboardWidget in fs <==> Isset(CommentsValue(store), CheckboxKey(6))
    ensures RemoveAdminBarLink in fs <==> Isset(CommentsValue(store), CheckboxKey(7)) && host.adminBarShowing
  {
    var v := CommentsValue(store);
    var on := CheckedAsWritten(v);
    CheckedAsWrittenIsIsset(v);
    Decide(on, PageComments(store), host)
  }

  /** With no stored `joaogrilo_comments`, the fallback string has no
      checkbox keys: only the `page_comments` path can switch anything on. */
  lemma MissingOptionOnlyPageComments(store: OptionsTable, host: Host)
    requires CommentsOption !in store
    ensures EnabledFeatures(store, host) == if PageComments(store) then {CloseCommentsAndPings} else {}
  {
  }

  /** A stored `'off'` still switches its feature on. */
  lemma StoredOffStillEnables(store: OptionsTable, host: Host, n: int)
    requires 1 <= n <= 7
    requires CommentsOption in store && store[CommentsOption].Arr?
    requires CheckboxKey(n) in store[CommentsOption].entries
    requires store[CommentsOption].entries[CheckboxKey(n)] == Str("off")
    ensures n == 1 ==> DisablePostTypeSupport in EnabledFeatures(store, host)
    ensures n == 2 ==> CloseCommentsAndPings in EnabledFeatures(store, host)
    ensures n == 3 ==> HideExistingComments in EnabledFeatures(store, host)
    ensures n == 4 && host.removeMenuExists ==> RemoveCommentsMenu in EnabledFeatures(store, host)
    ensures n == 5 ==> RedirectCommentsPage in EnabledFeatures(store, host)
    ensures n == 6 ==> RemoveDashboardWidget in EnabledFeatures(store, host)
    ensures n == 7 && host.adminBarShowing ==> RemoveAdminBarLink in EnabledFeatures(store, host)
  {
  }

  /** The value a settings checkbox posts: its hidden `off` input comes
      first and the checkbox's `on` second, and PHP keeps the last one sent. */
  function CheckboxSubmission(checked: bool): (v: Value)
    ensures v != Null
    ensures v == Str("on") <==> checked
    ensures !checked ==> v == Str("off")
  {
    if checked then Str("on") else Str("off")
  }

  /** The option array a saved form of the seven checkboxes leaves behind. */
  function SavedCheckboxes(checked: set<int>): Value
  {
    Arr(map[
      CheckboxKey(1) := CheckboxSubmission(1 in checked),
      CheckboxKey(2) := CheckboxSubmission(2 in checked),
      CheckboxKey(3) := CheckboxSubmission(3 in checked),
      CheckboxKey(4) := CheckboxSubmission(4 in checked),
      CheckboxKey(5) := CheckboxSubmission(5 in checked),
      CheckboxKey(6) := CheckboxSubmission(6 in checked),
      CheckboxKey(7) := CheckboxSubmission(7 in checked)])
  }

  lemma SavedCheckboxesAt(checked: set<int>, n: int)
    requires 1 <= n <= 7
    ensures CheckboxKey(n) in SavedCheckboxes(checked).entries
    ensures SavedCheckboxes(checked).entries[CheckboxKey(n)] == CheckboxSubmission(n in checked)
  {
    forall m | 1 <= m <= 7
      ensures CheckboxKey(m) == CheckboxKey(n) ==> m == n
    {
      CheckboxKeyInjective(m, n);
    }
  }

  /** As written, once the form has been saved every box counts as on,
      whichever boxes were actually checked. */
  lemma SavedFormEnablesEveryBox(store: OptionsTable, host: Host, checked: set<int>)
    requires CommentsOption in store && store[CommentsOption] == SavedCheckboxes(checked)
    ensures EnabledFeatures(store, host) == Decide(AllBoxes, PageComments(store), host)
  {
    forall n | 1 <= n <= 7
      ensures Isset(CommentsValue(store), CheckboxKey(n))
    {
      SavedCheckboxesAt(checked, n);
    }
    assert CheckedAsWritten(CommentsValue(store)) == AllBoxes;
  }

  /** A concrete case: the form saved with every box unchecked still
      strips comment support and redirects the comments page. */
  lemma UncheckedFormStillDisables()
    ensures var store := map[CommentsOption := SavedCheckboxes({})];
            && DisablePostTypeSupport in EnabledFeatures(store, Host(false, false))
            && RedirectCommentsPage in EnabledFeatures(store, Host(false, false))
  {
    SavedCheckboxesAt({}, 1);
    SavedCheckboxesAt({}, 5);
  }

  /** The evidently intended test: the stored value is `'on'`. */
  predicate GateIntended(v: Value, n: int)
    requires 1 <= n <= 7
  {
    Isset(v, CheckboxKey(n)) && v.entries[CheckboxKey(n)] == Str("on")
  }

  function CheckedIntended(v: Value): set<int>
  {
    set n | 1 <= n <= 7 && GateIntended(v, n)
  }

  /** The corrected gate: a box counts as on only when it is stored as `'on'`. */
  function IntendedFeatures(store: OptionsTable, host: Host): (fs: set<Feature>)
    ensures CommentsOption !in store ==> fs <= {CloseCommentsAndPings}
  {
    Decide(CheckedIntended(CommentsValue(store)), PageComments(store), host)
  }

  /** With the corrected gate, a saved form switches on exactly the features
      of the boxes that were checked. */
  lemma IntendedFeaturesFollowForm(store: OptionsTable, host: Host, checked: set<int>)
    requires forall n :: n in checked ==> 1 <= n <= 7
    requires CommentsOption in store && store[CommentsOption] == SavedCheckboxes(checked)
    ensures IntendedFeatures(store, host) == Decide(checked, PageComments(store), host)
  {
    forall n | 1 <= n <= 7
      ensures GateIntended(CommentsValue(store), n) <==> n in checked
    {
      SavedCheckboxesAt(checked, n);
    }
    assert CheckedIntended(CommentsValue(store)) == checked;
  }

  /** `joaogrilo_disable_comments_status`: the `comments_open`/`pings_open`
      filter answers "closed" for every post. */
  function CommentsStatusFilter(open: bool, postId: int): (r: bool)
    ensures !r
  {
    false
  }

  /** `joaogrilo_hide_existing_comments`: the `comments_array` filter drops
      every comment. */
  function HideCommentsFilter<C>(comments: seq<C>): (r: seq<C>)
    ensures |r| == 0
  {
    []
  }

  /** Whether a post reads as open for comments (or pings) once the
      filters of the features switched on have been applied. */
  function CommentsOpenAfterGate(features: set<Feature>, open: bool, postId: int): bool
  {
    if CloseCommentsAndPings in features then CommentsStatusFilter(open, postId) else open
  }

  /** As the plugin runs, comments and pings read as closed exactly when
      `page_comments` is truthy or checkbox 2 is set; otherwise WordPress's
      own answer stands. */
  lemma CommentsClosedExactly(store: OptionsTable, host: Host, open: bool, postId: int)
    ensures CommentsOpenAfterGate(EnabledFeatures(store, host), open, postId)
            == (open && !(PageComments(store) || Isset(CommentsValue(store), CheckboxKey(2))))
  {
  }

  /** The comment list a post shows once the filters of the features
      switched on have been applied. */
  function CommentsShownAfterGate<C>(features: set<Feature>, comments: seq<C>): seq<C>
  {
    if HideExistingComments in features then HideCommentsFilter(comments) else comments
  }

  /** As the plugin runs, existing comments disappear exactly when
      checkbox 3 is set. */
  lemma CommentsHiddenExactly<C>(store: OptionsTable, host: Host, comments: seq<C>)
    ensures Isset(CommentsValue(store), CheckboxKey(3)) ==>
              CommentsShownAfterGate(EnabledFeatures(store, host), comments) == []
    ensures !Isset(CommentsValue(store), CheckboxKey(3)) ==>
              CommentsShownAfterGate(EnabledFeatures(store, host), comments) == comments
  {
  }

  /** The page test of `joaogrilo_disable_comments_admin_menu_redirect`. */
  predicate RedirectsFrom(pagenow: string)
  {
    pagenow == CommentsPage
  }

  /** Whether a request for admin page `pagenow` is redirected. */
  predicate AdminRedirects(features: set<Feature>, pagenow: string)
  {
    RedirectCommentsPage in features && RedirectsFrom(pagenow)
  }

  /** As the plugin runs, the admin redirect fires exactly on the comments
      page, and only when checkbox 5 is set. */
  lemma AdminRedirectExactly(store: OptionsTable, host: Host, pagenow: string)
    ensures AdminRedirects(EnabledFeatures(store, host), pagenow)
            <==> (Isset(CommentsValue(store), CheckboxKey(5)) && pagenow == CommentsPage)
  {
  }

  /** Which features each registered post type supports. */
  type Supports = map<string, set<string>>

  /** Reference definition: every post type that supports comments loses
      `comments` and `trackbacks`; the others are untouched. */
  function WithoutCommentSupport(supports: Supports): (r: Supports)
    ensures r.Keys == supports.Keys
    ensures forall pt :: pt in r ==> "comments" !in r[pt]
    ensures forall pt :: pt in supports && "comments" in supports[pt] ==>
              r[pt] == supports[pt] - {"comments", "trackbacks"}
    ensures forall pt :: pt in supports && "comments" !in supports[pt] ==> r[pt] == supports[pt]
  {
    map pt | pt in supports ::
      if "comments" in supports[pt] then supports[pt] - {"comments", "trackbacks"} else supports[pt]
  }

  /** Stripping comment support twice is the same as once. */
  lemma WithoutCommentSupportIdempotent(supports: Supports)
    ensures WithoutCommentSupport(WithoutCommentSupport(supports)) == WithoutCommentSupport(supports)
  {
  }

  /** `joaogrilo_disable_comments_post_types_support`: the loop over the
      post types `get_post_types` lists. */
  method DisablePostTypesSupport(postTypes: seq<string>, supports: Supports) returns (r: Supports)
    ensures r.Keys == supports.Keys
    ensures forall pt :: pt in r ==>
              r[pt] == if pt in postTypes && "comments" in supports[pt]
                       then supports[pt] - {"comments", "trackbacks"} else supports[pt]
    ensures (forall pt :: pt in supports ==> pt in postTypes) ==> r == WithoutCommentSupport(supports)
  {
    r := supports;
    var i := 0;
    while i < |postTypes|
      invariant 0 <= i <= |postTypes|
      invariant r.Keys == supports.Keys
      invariant forall pt :: pt in r ==>
                  r[pt] == if pt in postTypes[..i] && "comments" in supports[pt]
                           then supports[pt] - {"comments", "trackbacks"} else supports[pt]
    {
      var pt := postTypes[i];
      if pt in r && "comments" in r[pt] {
        r := r[pt := r[pt] - {"comments", "trackbacks"}];
      }
      assert postTypes[..i + 1] == postTypes[..i] + [pt];
      i := i + 1;
    }
    assert postTypes[..i] == postTypes;
  }
}
