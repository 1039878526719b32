/**
 * The file-system names the sync engine derives: where a message's media file is
 * moved to, where a user's avatar lives, which letter the generated placeholder
 * avatar shows, and the extension helper. Only the strings are modelled; creating
 * directories, moving files and rendering images are effects outside the model.
 */
module Paths {
  import opened Wrappers
  import opened Text

  /** `<media_dir>/chats/<group_id>/<msg_id>`: the directory a message's media goes to. */
  function MediaDir(mediaDir: string, groupId: int, msgId: int): string {
    Join(Join(Join(mediaDir, "chats"), IntToString(groupId)), IntToString(msgId))
  }

  /**
   * Where a downloaded file ends up: moving it into the (existing) message directory
   * keeps its base name.
   */
  function MovedMediaPath(mediaDir: string, groupId: int, msgId: int, downloaded: string): string {
    Join(MediaDir(mediaDir, groupId, msgId), AfterLast(downloaded, '/'))
  }

  /** The prefix every media directory of an archive shares. */
  function ChatsRoot(mediaDir: string): (r: string)
    ensures |r| > 0 && r[|r| - 1] == 's'
  {
    Join(mediaDir, "chats")
  }

  /** A message directory is never the root and never ends in a slash. */
  lemma MediaDirShape(mediaDir: string, groupId: int, msgId: int)
    ensures MediaDir(mediaDir, groupId, msgId)
         == Join(ChatsRoot(mediaDir), IntToString(groupId)) + "/" + IntToString(msgId)
    ensures var d := MediaDir(mediaDir, groupId, msgId); d != [] && d[|d| - 1] != '/'
  {
    JoinSlash(ChatsRoot(mediaDir), IntToString(groupId));
    JoinSlash(Join(ChatsRoot(mediaDir), IntToString(groupId)), IntToString(msgId));
  }

  /** Two different messages (group, id) never share a media directory. */
  lemma MediaDirInjective(mediaDir: string, g1: int, i1: int, g2: int, i2: int)
    requires MediaDir(mediaDir, g1, i1) == MediaDir(mediaDir, g2, i2)
    ensures g1 == g2 && i1 == i2
  {
    var root := ChatsRoot(mediaDir);
    JoinSlash(root, IntToString(g1));
    JoinSlash(root, IntToString(g2));
    JoinInjective(Join(root, IntToString(g1)), IntToString(i1), Join(root, IntToString(g2)), IntToString(i2));
    JoinInjective(root, IntToString(g1), root, IntToString(g2));
    IntToStringInjective(g1, g2);
    IntToStringInjective(i1, i2);
  }

  /** A moved file lies directly inside its message's directory and keeps its base name. */
  lemma MovedMediaPathShape(mediaDir: string, groupId: int, msgId: int, downloaded: string)
    ensures MovedMediaPath(mediaDir, groupId, msgId, downloaded)
         == MediaDir(mediaDir, groupId, msgId) + "/" + AfterLast(downloaded, '/')
  {
    MediaDirShape(mediaDir, groupId, msgId);
    JoinSlash(MediaDir(mediaDir, groupId, msgId), AfterLast(downloaded, '/'));
  }

  /** Media of two different messages never land on the same path, whatever the file names. */
  lemma MovedMediaPathInjective(mediaDir: string, g1: int, i1: int, f1: string, g2: int, i2: int, f2: string)
    requires MovedMediaPath(mediaDir, g1, i1, f1) == MovedMediaPath(mediaDir, g2, i2, f2)
    ensures g1 == g2 && i1 == i2
    ensures AfterLast(f1, '/') == AfterLast(f2, '/')
  {
    MediaDirShape(mediaDir, g1, i1);
    MediaDirShape(mediaDir, g2, i2);
    JoinInjective(MediaDir(mediaDir, g1, i1), AfterLast(f1, '/'), MediaDir(mediaDir, g2, i2), AfterLast(f2, '/'));
    MediaDirInjective(mediaDir, g1, i1, g2, i2);
  }

  /** `<media_dir>/users/<user_id>`. */
  function AvatarDir(mediaDir: string, userId: int): string {
    Join(Join(mediaDir, "users"), IntToString(userId))
  }

  /** The text an f-string gives for a possibly missing username: Python prints None as "None". */
  function UsernameText(username: Option<string>): (s: string)
    ensures username.Some? ==> s == username.value
    ensures username.None? ==> s == "None"
  {
    match username
    case Some(u) => u
    case None => "None"
  }

  /** `<media_dir>/users/<user_id>/<username>.png`. */
  function AvatarPath(mediaDir: string, userId: int, username: Option<string>): string {
    Join(AvatarDir(mediaDir, userId), UsernameText(username) + ".png")
  }

  /** An avatar is a `.png` file directly inside its user's directory, named after the username. */
  lemma AvatarPathShape(mediaDir: string, userId: int, username: Option<string>)
    requires username.Some? ==> '/' !in username.value
    ensures AvatarPath(mediaDir, userId, username)
         == AvatarDir(mediaDir, userId) + "/" + UsernameText(username) + ".png"
  {
    JoinSlash(Join(mediaDir, "users"), IntToString(userId));
    JoinSlash(AvatarDir(mediaDir, userId), UsernameText(username) + ".png");
  }

  /** Different users never share an avatar file (usernames contain no slash). */
  lemma AvatarPathInjective(mediaDir: string, id1: int, n1: Option<string>, id2: int, n2: Option<string>)
    requires n1.Some? ==> '/' !in n1.value
    requires n2.Some? ==> '/' !in n2.value
    requires AvatarPath(mediaDir, id1, n1) == AvatarPath(mediaDir, id2, n2)
    ensures id1 == id2
    ensures UsernameText(n1) == UsernameText(n2)
  {
    var f1, f2 := UsernameText(n1) + ".png", UsernameText(n2) + ".png";
    AvatarDirShape(mediaDir, id1);
    AvatarDirShape(mediaDir, id2);
    AvatarNameNoSlash(n1);
    AvatarNameNoSlash(n2);
    JoinInjective(AvatarDir(mediaDir, id1), f1, AvatarDir(mediaDir, id2), f2);
    AvatarDirInjective(mediaDir, id1, id2);
    SuffixCancel(UsernameText(n1), UsernameText(n2), ".png");
  }

  /** An avatar's file name has no slash when the username has none. */
  lemma AvatarNameNoSlash(username: Option<string>)
    requires username.Some? ==> '/' !in username.value
    ensures '/' !in UsernameText(username) + ".png"
  {
    var u := UsernameText(username);
    assert forall i :: 0 <= i < |u| + 4 ==> (u + ".png")[i] == if i < |u| then u[i] else ".png"[i - |u|];
  }

  /** A user's directory is a non-empty path that does not end in a slash. */
  lemma AvatarDirShape(mediaDir: string, userId: int)
    ensures var d := AvatarDir(mediaDir, userId); d != [] && d[|d| - 1] != '/'
  {
    JoinSlash(Join(mediaDir, "users"), IntToString(userId));
  }

  /** Different users have different directories. */
  lemma AvatarDirInjective(mediaDir: string, id1: int, id2: int)
    requires AvatarDir(mediaDir, id1) == AvatarDir(mediaDir, id2)
    ensures id1 == id2
  {
    var root := Join(mediaDir, "users");
    JoinSlash(root, IntToString(id1));
    JoinInjective(root, IntToString(id1), root, IntToString(id2));
    IntToStringInjective(id1, id2);
  }

  /** Equal strings with the same suffix are equal without it. */
  lemma SuffixCancel(a: string, b: string, x: string)
    requires a + x == b + x
    ensures a == b
  {
    assert a == (a + x)[..|a|];
    assert b == (b + x)[..|b|];
  }

  /** ASCII upper-casing of one character. */
  function UpperChar(c: char): (u: char)
    ensures 'a' <= c <= 'z' ==> 'A' <= u <= 'Z' && u as int == c as int - 32
    ensures !('a' <= c <= 'z') ==> u == c
  {
    if 'a' <= c <= 'z' then (c as int - 32) as char else c
  }

  /**
   * The letter drawn on a generated avatar: the first letter of the first name when
   * there is a non-empty one, otherwise "N"; upper-cased.
   */
  function PlaceholderLetter(firstName: Option<string>): (r: string)
    ensures |r| == 1
    ensures firstName.Some? && firstName.value != [] ==> r == [UpperChar(firstName.value[0])]
    ensures firstName.None? || firstName.value == [] ==> r == "N"
  {
    if firstName.Some? && firstName.value != [] then [UpperChar(firstName.value[0])] else "N"
  }

  /** Two first names that start with the same letter, up to case, get the same placeholder. */
  lemma PlaceholderLetterIgnoresCase(a: string, b: string)
    requires a != [] && b != []
    requires 'a' <= a[0] <= 'z' && b[0] as int == a[0] as int - 32
    ensures PlaceholderLetter(Some(a)) == PlaceholderLetter(Some(b))
  {
  }

  /**
   * The text after the last "." when the name has a dot and that text is shorter than
   * six characters (the dot itself is not included); ".file" otherwise.
   */
  function FileExt(f: string): (r: string)
  {
    if '.' in f && |AfterLast(f, '.')| < 6 then AfterLast(f, '.') else ".file"
  }

  /** FileExt returns a short dot-free suffix of the name exactly when there is one. */
  lemma FileExtSpec(f: string)
    ensures '.' in f && |AfterLast(f, '.')| < 6 ==>
      var e := FileExt(f);
      && |e| < 6 && '.' !in e
      && |e| < |f| && f[|f| - |e| - 1..] == "." + e
    ensures !('.' in f && |AfterLast(f, '.')| < 6) ==> FileExt(f) == ".file"
  {
    if '.' in f && |AfterLast(f, '.')| < 6 {
      DotSuffix(f, AfterLast(f, '.'));
    }
  }

  /** The text after the last dot of a name that has one is, with that dot, a suffix of the name. */
  lemma DotSuffix(f: string, e: string)
    requires '.' in f && e == AfterLast(f, '.')
    ensures '.' !in e && |e| < |f| && f[|f| - |e| - 1..] == "." + e
  {
    AfterLastShorter(f, '.');
    SliceCons(f, |f| - |e| - 1);
  }

  lemma SliceCons<T>(s: seq<T>, k: nat)
    requires k < |s|
    ensures s[k..] == [s[k]] + s[k + 1..]
  {
  }
}
