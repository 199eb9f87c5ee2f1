/**
 * The content form's data: five text fields and two file lists, with the
 * field-by-field updates the change handlers perform.
 */
module Form {

  /** A selected file; the browser's `File` object is treated as an opaque token. */
  datatype FileHandle = FileHandle(token: nat)

  /** The `name` attributes of the text inputs. */
  datatype TextField = HeroHeader | HeroSubHeader | HeroText | Email | PhoneNumber

  /** The `name` attributes of the file inputs. */
  datatype FileField = Images | Videos

  datatype FormState = FormState(
    heroHeader: string,
    heroSubHeader: string,
    heroText: string,
    email: string,
    phoneNumber: string,
    images: seq<FileHandle>,
    videos: seq<FileHandle>
  )

  /** The state the form page starts with: every text empty, no files. */
  const Initial: FormState := FormState("", "", "", "", "", [], [])

  function TextOf(f: FormState, k: TextField): string {
    match k
    case HeroHeader => f.heroHeader
    case HeroSubHeader => f.heroSubHeader
    case HeroText => f.heroText
    case Email => f.email
    case PhoneNumber => f.phoneNumber
  }

  function FilesOf(f: FormState, k: FileField): seq<FileHandle> {
    match k
    case Images => f.images
    case Videos => f.videos
  }

  /** Two form states are equal exactly when every field reads the same. */
  lemma FieldsDetermineState(f: FormState, g: FormState)
    requires forall k :: TextOf(f, k) == TextOf(g, k)
    requires forall k :: FilesOf(f, k) == FilesOf(g, k)
    ensures f == g
  {
    assert TextOf(f, HeroHeader) == TextOf(g, HeroHeader);
    assert TextOf(f, HeroSubHeader) == TextOf(g, HeroSubHeader);
    assert TextOf(f, HeroText) == TextOf(g, HeroText);
    assert TextOf(f, Email) == TextOf(g, Email);
    assert TextOf(f, PhoneNumber) == TextOf(g, PhoneNumber);
    assert FilesOf(f, Images) == FilesOf(g, Images);
    assert FilesOf(f, Videos) == FilesOf(g, Videos);
  }

  /** The text change handler: `{ ...prev, [name]: value }`. */
  function SetText(f: FormState, k: TextField, value: string): (r: FormState)
    ensures TextOf(r, k) == value
    ensures forall k' :: k' != k ==> TextOf(r, k') == TextOf(f, k')
    ensures forall g :: FilesOf(r, g) == FilesOf(f, g)
  {
    match k
    case HeroHeader => f.(heroHeader := value)
    case HeroSubHeader => f.(heroSubHeader := value)
    case HeroText => f.(heroText := value)
    case Email => f.(email := value)
    case PhoneNumber => f.(phoneNumber := value)
  }

  /** The file change handler: `{ ...prev, [name]: Array.from(files) }`, replacing the old list. */
  function SetFiles(f: FormState, k: FileField, files: seq<FileHandle>): (r: FormState)
    ensures FilesOf(r, k) == files
    ensures forall g :: g != k ==> FilesOf(r, g) == FilesOf(f, g)
    ensures forall t :: TextOf(r, t) == TextOf(f, t)
  {
    match k
    case Images => f.(images := files)
    case Videos => f.(videos := files)
  }

  /** A later text update of the same field overwrites the earlier one. */
  lemma SetTextLastWins(f: FormState, k: TextField, a: string, b: string)
    ensures SetText(SetText(f, k, a), k, b) == SetText(f, k, b)
  {
    FieldsDetermineState(SetText(SetText(f, k, a), k, b), SetText(f, k, b));
  }

  /** A new selection replaces the previous one instead of being appended to it. */
  lemma SetFilesReplaces(f: FormState, k: FileField, a: seq<FileHandle>, b: seq<FileHandle>)
    ensures SetFiles(SetFiles(f, k, a), k, b) == SetFiles(f, k, b)
  {
    FieldsDetermineState(SetFiles(SetFiles(f, k, a), k, b), SetFiles(f, k, b));
  }

  /**
   * The count shown under a file input: nothing while the list is empty,
   * otherwise the number of selected files.
   */
  function SelectionCount(f: FormState, k: FileField): nat {
    |FilesOf(f, k)|
  }

  predicate ShowsSelectionCount(f: FormState, k: FileField) {
    |FilesOf(f, k)| > 0
  }

  /** After a selection the notice shows exactly its size, whatever was selected before. */
  lemma SelectionCountAfterUpdate(f: FormState, k: FileField, files: seq<FileHandle>)
    ensures SelectionCount(SetFiles(f, k, files), k) == |files|
    ensures ShowsSelectionCount(SetFiles(f, k, files), k) <==> |files| > 0
  {
  }
}
