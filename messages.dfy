/**
 * The text the server writes: notices, chat lines, prompts, the rejection
 * line and the decorated welcome banner, with their ANSI colour escapes
 * written out literally, and the `/quit` command test.
 */
module Messages {
  import opened GoStrings

  /** The escape character that starts every ANSI colour sequence. */
  const Esc: char := '\U{1B}'

  /** Resets all colours. */
  const Reset: string := [Esc] + "[0m"

  /** Written to a connection that arrives while the server is full. */
  const ServerFull: string := "Maximum number of clients reached. Please try again later.\n"

  /** Written before every attempt to read a username. */
  const UsernamePrompt: string := [Esc] + "[35;1;4m[ENTER YOUR USERNAME]: " + Reset

  /** Written after an empty username line. */
  const EmptyUsernameError: string := [Esc] + "[31;1m[ERROR]: Username cannot be empty" + Reset + "\n"

  /** Opening sequence of a join notice (green, bold). */
  const JoinColour: string := [Esc] + "[32;1m"

  /** Opening sequence of a leave notice (red, bold). */
  const LeaveColour: string := [Esc] + "[31;1m"

  /** Opening sequence of a chat line (cyan). */
  const ChatColour: string := [Esc] + "[36m"

  /** "<username> has joined the chat", as notifyJoin formats it. */
  function JoinNotice(username: string): string
  {
    JoinColour + username + " has joined the chat" + Reset + "\n"
  }

  /** "<username> has left the chat", as notifyLeave formats it. */
  function LeaveNotice(username: string): string
  {
    LeaveColour + username + " has left the chat" + Reset + "\n"
  }

  /** "[<stamp>][<username>]: <text>", as sendMessage formats a chat line. */
  function ChatLine(stamp: string, username: string, text: string): string {
    ChatColour + "[" + stamp + "][" + username + "]: " + text + Reset + "\n"
  }

  /** "[<stamp>][<username>]:", the header sendMessage returns for a blank line. */
  function EmptyHeader(stamp: string, username: string): string {
    ChatColour + "[" + stamp + "][" + username + "]:" + Reset + "\n"
  }

  /** The username can be read back from a join notice. */
  lemma JoinNoticeInjective(a: string, b: string)
    ensures JoinNotice(a) == JoinNotice(b) ==> a == b
  {
    if JoinNotice(a) == JoinNotice(b) {
      assert a == JoinNotice(a)[|JoinColour|..|JoinColour| + |a|];
      assert b == JoinNotice(b)[|JoinColour|..|JoinColour| + |b|];
    }
  }

  /** The username can be read back from a leave notice. */
  lemma LeaveNoticeInjective(a: string, b: string)
    ensures LeaveNotice(a) == LeaveNotice(b) ==> a == b
  {
    if LeaveNotice(a) == LeaveNotice(b) {
      assert a == LeaveNotice(a)[|LeaveColour|..|LeaveColour| + |a|];
      assert b == LeaveNotice(b)[|LeaveColour|..|LeaveColour| + |b|];
    }
  }

  /**
   * Join notices, leave notices and chat lines are told apart by their colour
   * code, so a history never confuses one kind of entry with another.
   */
  lemma EntryKindsDistinct(a: string, b: string, stamp: string, text: string)
    ensures JoinNotice(a) != LeaveNotice(b)
    ensures JoinNotice(a) != ChatLine(stamp, b, text)
    ensures LeaveNotice(a) != ChatLine(stamp, b, text)
  {
    assert JoinNotice(a)[3] == '2';
    assert LeaveNotice(a)[3] == '1';
    assert ChatLine(stamp, b, text)[3] == '6';
  }

  /** The quit command: the line lower-cases to exactly "/quit". */
  predicate IsQuit(line: string) {
    ToLower(line) == "/quit"
  }

  /**
   * The lines that end a session: "/quit" in any letter case, where the
   * letter i may also be written as U+0130, which Go lower-cases to 'i'.
   */
  lemma IsQuitIff(line: string)
    ensures IsQuit(line) <==>
      && |line| == 5
      && line[0] == '/'
      && (line[1] == 'q' || line[1] == 'Q')
      && (line[2] == 'u' || line[2] == 'U')
      && (line[3] == 'i' || line[3] == 'I' || line[3] == '\U{130}')
      && (line[4] == 't' || line[4] == 'T')
  {
    if |line| == 5 {
      LowerRuneIs(line[0], '/');
      LowerRuneIs(line[1], 'q');
      LowerRuneIs(line[2], 'u');
      LowerRuneIs(line[3], 'i');
      LowerRuneIs(line[4], 't');
      var l := ToLower(line);
      assert l == "/quit" <==> l[0] == '/' && l[1] == 'q' && l[2] == 'u' && l[3] == 'i' && l[4] == 't';
    }
  }

  /** Opening sequence of every welcome line (bold white on black). */
  const WelcomeOpen: string := [Esc] + "[40m" + [Esc] + "[1;37m"

  /** What "[orange]" becomes in a welcome line. */
  const OrangeOn: string := [Esc] + "[38;5;208m"

  /** What "[/orange]" becomes in a welcome line. */
  const OrangeOff: string := Reset + [Esc] + "[40;1;37m"

  /** The tags that mark an orange span in a welcome line. */
  const OpenTag: string := "[orange]"
  const CloseTag: string := "[/orange]"

  /** formatWelcomeMessage: the two tag replacements, then a fixed frame. */
  function FormatWelcomeMessage(message: string): (r: string)
    ensures StartsWith(r, WelcomeOpen)
    ensures |r| >= |WelcomeOpen| + |Reset| && r[|r| - |Reset|..] == Reset
  {
    var orange := ReplaceAll(message, OpenTag, OrangeOn);
    var closed := ReplaceAll(orange, CloseTag, OrangeOff);
    var r := WelcomeOpen + closed + Reset;
    assert r[..|WelcomeOpen|] == WelcomeOpen;
    r
  }

  /** A welcome line without any '[' is only framed. */
  lemma FormatPlainWelcome(message: string)
    requires forall i :: 0 <= i < |message| ==> message[i] != '['
    ensures FormatWelcomeMessage(message) == WelcomeOpen + message + Reset
  {
    NoBracketNoStart(message, OpenTag);
    NoBracketNoStart(message, CloseTag);
    ReplaceAllSkips(message, [], OpenTag, OrangeOn);
    ReplaceAllSkips(message, [], CloseTag, OrangeOff);
    assert message + [] == message;
  }

  /** A text without '[' holds no start of either tag. */
  lemma NoBracketNoStart(text: string, pat: string)
    requires |pat| >= 2 && pat[0] == '['
    requires forall i :: 0 <= i < |text| ==> text[i] != '['
    ensures NoMatchStart(text, pat)
  {
  }

  /** No opening tag can begin inside the closing tag. */
  lemma CloseTagHoldsNoOpenTag()
    ensures NoMatchStart(CloseTag, OpenTag)
  {
    assert CloseTag[0] == '[' && CloseTag[1] == '/';
    assert forall i :: 1 <= i < |CloseTag| ==> CloseTag[i] != '[';
  }

  /** No closing tag can begin inside the orange escape. */
  lemma OrangeOnHoldsNoCloseTag()
    ensures NoMatchStart(OrangeOn, CloseTag)
  {
    assert OrangeOn[1] == '[' && OrangeOn[2] == '3';
    assert forall i :: 0 <= i < |OrangeOn| && i != 1 ==> OrangeOn[i] != '[';
  }

  /** First pass: only the opening tag is replaced. */
  lemma OrangeOpenPass(u: string, text: string, w: string)
    requires NoMatchStart(u, OpenTag) && NoMatchStart(text, OpenTag) && NoMatchStart(w, OpenTag)
    ensures ReplaceAll(u + OpenTag + text + CloseTag + w, OpenTag, OrangeOn)
         == u + OrangeOn + text + CloseTag + w
  {
    CloseTagHoldsNoOpenTag();
    ReplaceAllFirstOfFive(u, OpenTag, text, CloseTag, w, OrangeOn);
  }

  /** Second pass: only the closing tag is replaced; the orange sequence is copied. */
  lemma OrangeClosePass(u: string, text: string, w: string)
    requires NoMatchStart(u, CloseTag) && NoMatchStart(text, CloseTag) && NoMatchStart(w, CloseTag)
    ensures ReplaceAll(u + OrangeOn + text + CloseTag + w, CloseTag, OrangeOff)
         == u + OrangeOn + text + OrangeOff + w
  {
    OrangeOnHoldsNoCloseTag();
    ReplaceAllFourthOfFive(u, OrangeOn, text, CloseTag, w, OrangeOff);
  }

  /**
   * An "[orange]...[/orange]" span inside a line otherwise free of '[' becomes
   * orange text followed by the banner colours; the text around it is kept.
   */
  lemma FormatOrangeSpan(u: string, text: string, w: string)
    requires forall i :: 0 <= i < |u| ==> u[i] != '['
    requires forall i :: 0 <= i < |text| ==> text[i] != '['
    requires forall i :: 0 <= i < |w| ==> w[i] != '['
    ensures FormatWelcomeMessage(u + OpenTag + text + CloseTag + w)
         == WelcomeOpen + (u + OrangeOn + text + OrangeOff + w) + Reset
  {
    var orange := u + OrangeOn + text + CloseTag + w;
    assert ReplaceAll(u + OpenTag + text + CloseTag + w, OpenTag, OrangeOn) == orange by {
      NoBracketNoStart(u, OpenTag);
      NoBracketNoStart(text, OpenTag);
      NoBracketNoStart(w, OpenTag);
      OrangeOpenPass(u, text, w);
    }
    assert ReplaceAll(orange, CloseTag, OrangeOff) == u + OrangeOn + text + OrangeOff + w by {
      NoBracketNoStart(u, CloseTag);
      NoBracketNoStart(text, CloseTag);
      NoBracketNoStart(w, CloseTag);
      OrangeClosePass(u, text, w);
    }
  }

  /**
   * sendWelcomeMessage without the file: writes every banner line, decorated
   * and terminated by a newline, in file order.
   */
  method SendWelcomeMessage(banner: seq<string>) returns (written: seq<string>)
    ensures |written| == |banner|
    ensures forall i :: 0 <= i < |banner| ==> written[i] == FormatWelcomeMessage(banner[i]) + "\n"
  {
    written := [];
    var i := 0;
    while i < |banner|
      invariant 0 <= i <= |banner|
      invariant |written| == i
      invariant forall k :: 0 <= k < i ==> written[k] == FormatWelcomeMessage(banner[k]) + "\n"
    {
      written := written + [FormatWelcomeMessage(banner[i]) + "\n"];
      i := i + 1;
    }
  }
}
