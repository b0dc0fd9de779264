/**
 * One pass of `main_menu`, with the answers typed at its prompts given as
 * parameters: the top-level choice, the compression sub-menu choice and
 * the pasted link. Prompts that a branch never reaches are simply unused.
 */
module Menu {
  import opened Text

  datatype Action =
    | StartDownload(url: string, compress: bool)  // `download_video(link, force_compress=...)`
    | CompressLocalFile                           // `compress_local_file()`
    | Quit                                        // "Goodbye!" and `sys.exit()`
    | ShowInvalidChoice                           // "Invalid choice."
    | BackToMenu                                  // nothing happens; the loop shows the menu again

  /**
   * Both choices are compared after stripping surrounding whitespace; the
   * link is not stripped, and an empty link starts nothing.
   */
  function MainMenu(choice: string, subChoice: string, link: string): (a: Action)
    ensures a == Quit <==> Strip(choice) == "3"
    ensures a == ShowInvalidChoice <==> Strip(choice) !in {"1", "2", "3"}
    ensures a == CompressLocalFile <==> Strip(choice) == "2" && Strip(subChoice) == "2"
    ensures a.StartDownload? <==>
      (link != "" && (Strip(choice) == "1" || (Strip(choice) == "2" && Strip(subChoice) == "1")))
    ensures a.StartDownload? ==> a.url == link && (a.compress <==> Strip(choice) == "2")
  {
    var c := Strip(choice);
    if c == "1" then
      if link != "" then StartDownload(link, false) else BackToMenu
    else if c == "2" then
      var s := Strip(subChoice);
      if s == "1" then
        if link != "" then StartDownload(link, true) else BackToMenu
      else if s == "2" then CompressLocalFile
      else BackToMenu
    else if c == "3" then Quit
    else ShowInvalidChoice
  }

  lemma StripIdempotent(s: string)
    ensures Strip(Strip(s)) == Strip(s)
  {
    StripUnchanged(Strip(s));
  }

  /** Answers that differ only in surrounding whitespace pick the same action. */
  lemma MenuIgnoresPadding(choice: string, subChoice: string, link: string)
    ensures MainMenu(Strip(choice), Strip(subChoice), link) == MainMenu(choice, subChoice, link)
  {
    StripIdempotent(choice);
    StripIdempotent(subChoice);
  }

  /** A "3" padded with ASCII and non-ASCII whitespace (a no-break space, an ideographic space) still quits. */
  lemma PaddedExit(choice: string, subChoice: string, link: string)
    requires choice == " \U{A0}3\n\U{3000}"
    ensures MainMenu(choice, subChoice, link) == Quit
  {
    assert choice == " \U{A0}" + "3" + "\n\U{3000}";
    StripPadding(" \U{A0}", "3", "\n\U{3000}");
    StripUnchanged("3");
  }
}
