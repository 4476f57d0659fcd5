/**
 * The image carousel of the gallery page (`openGalleryModal` in js/gallery.js):
 * a modal overlay holding a non-empty list of image URLs and the index of the
 * one on show, navigated with wrap-around, and closed by detaching the overlay
 * and unregistering its document-wide `keydown` handler.
 */
module GalleryModal {
  import opened Text

  /** The parts of the document the carousel touches: the body's children and the `keydown` handlers. */
  class Document {
    var body: set<object>
    var keyListeners: set<object>

    constructor ()
      ensures body == {} && keyListeners == {}
    {
      body, keyListeners := {}, {};
    }
  }

  datatype Key = Escape | ArrowLeft | ArrowRight | OtherKey

  /** The index `updateImage` settles on: before the first goes to the last, past the last to the first. */
  function Wrap(newIndex: int, length: nat): (i: int)
    requires length > 0
    ensures 0 <= i < length
    ensures 0 <= newIndex < length ==> i == newIndex
  {
    if newIndex < 0 then length - 1 else if newIndex >= length then 0 else newIndex
  }

  /** From a valid index, one step either way is a step modulo the length. */
  lemma WrapIsModular(index: int, length: nat)
    requires 0 <= index < length
    ensures Wrap(index + 1, length) == (index + 1) % length
    ensures Wrap(index - 1, length) == (index - 1) % length
  {
    if index + 1 == length {
      ModOfMultiple(index + 1, length, 1);
    } else {
      ModOfMultiple(index + 1, length, 0);
    }
    if index == 0 {
      ModOfMultiple(index - 1, length, -1);
    } else {
      ModOfMultiple(index - 1, length, 0);
    }
  }

  /** x % n for an x that lies q * n below [0, n). */
  lemma ModOfMultiple(x: int, n: nat, q: int)
    requires n > 0 && 0 <= x - q * n < n && -1 <= q <= 1
    ensures x % n == x - q * n
  {
  }

  /** Stepping back undoes stepping forward, and the other way round. */
  lemma PreviousUndoesNext(index: int, length: nat)
    requires 0 <= index < length
    ensures Wrap(Wrap(index + 1, length) - 1, length) == index
    ensures Wrap(Wrap(index - 1, length) + 1, length) == index
  {
  }

  /** The index after n steps forward. */
  function StepsForward(index: int, length: nat, n: nat): (i: int)
    requires 0 <= index < length
    ensures 0 <= i < length
  {
    if n == 0 then index else Wrap(StepsForward(index, length, n - 1) + 1, length)
  }

  /** Up to a full round, n steps forward move n places, wrapping once past the end. */
  lemma {:induction false} StepsForwardWrapsOnce(index: int, length: nat, n: nat)
    requires 0 <= index < length && n <= length
    ensures StepsForward(index, length, n) == if index + n < length then index + n else index + n - length
  {
    if n > 0 {
      StepsForwardWrapsOnce(index, length, n - 1);
    }
  }

  /** The carousel is a cycle: as many steps forward as there are images come back to the start. */
  lemma FullRoundReturns(index: int, length: nat)
    requires 0 <= index < length
    ensures StepsForward(index, length, length) == index
  {
    StepsForwardWrapsOnce(index, length, length);
  }

  /** One open modal: its images, the index on show, and the document it lives in. */
  class Carousel {
    const doc: Document
    const images: seq<string>
    var index: int

    ghost predicate Valid()
      reads this
    {
      0 <= index < |images|
    }

    /** The overlay is attached and its key handler registered by `openGalleryModal` (index 0, its only start). */
    constructor Open(doc: Document, images: seq<string>)
      requires |images| > 0
      modifies doc
      ensures Valid() && this.doc == doc && this.images == images && index == 0
      ensures doc.body == old(doc.body) + {this}
      ensures doc.keyListeners == old(doc.keyListeners) + {this}
    {
      this.doc := doc;
      this.images := images;
      index := 0;
      new;
      doc.body := doc.body + {this};
      doc.keyListeners := doc.keyListeners + {this};
    }

    /** The image on show (`modalImg.src`). */
    function Shown(): (url: string)
      reads this
      requires Valid()
      ensures url in images
    {
      images[index]
    }

    /** The counter's first number, always between 1 and the number of images. */
    function Position(): (p: nat)
      reads this
      requires Valid()
      ensures 1 <= p <= |images|
    {
      index + 1
    }

    /** The counter text `<index + 1> / <length>`. */
    function CounterText(): string
      reads this
      requires Valid()
    {
      NatToString(Position()) + " / " + NatToString(|images|)
    }

    /** `updateImage` */
    method UpdateImage(newIndex: int)
      requires Valid()
      modifies this`index
      ensures Valid() && index == Wrap(newIndex, |images|)
    {
      var i := newIndex;
      if i < 0 {
        i := |images| - 1;
      }
      if i >= |images| {
        i := 0;
      }
      index := i;
    }

    /** The previous button, or the left arrow: from the first image to the last. */
    method ShowPrevious()
      requires Valid()
      modifies this`index
      ensures Valid()
      ensures index == if old(index) == 0 then |images| - 1 else old(index) - 1
    {
      UpdateImage(index - 1);
    }

    /** The next button, or the right arrow: from the last image to the first. */
    method ShowNext()
      requires Valid()
      modifies this`index
      ensures Valid()
      ensures index == if old(index) == |images| - 1 then 0 else old(index) + 1
    {
      UpdateImage(index + 1);
    }

    /** `closeModal`: detach the overlay if attached, and unregister the key handler. */
    method Close()
      modifies doc
      ensures doc.body == old(doc.body) - {this}
      ensures doc.keyListeners == old(doc.keyListeners) - {this}
    {
      if this in doc.body {
        doc.body := doc.body - {this};
      }
      doc.keyListeners := doc.keyListeners - {this};
    }

    /** `onKeyDown`: Escape closes, the arrows navigate, any other key does nothing. */
    method OnKeyDown(key: Key)
      requires Valid()
      modifies this`index, doc
      ensures Valid()
      ensures key == Escape ==> (index == old(index) &&
        doc.body == old(doc.body) - {this} && doc.keyListeners == old(doc.keyListeners) - {this})
      ensures key == ArrowLeft ==> (index == Wrap(old(index) - 1, |images|) &&
        doc.body == old(doc.body) && doc.keyListeners == old(doc.keyListeners))
      ensures key == ArrowRight ==> (index == Wrap(old(index) + 1, |images|) &&
        doc.body == old(doc.body) && doc.keyListeners == old(doc.keyListeners))
      ensures key == OtherKey ==> (index == old(index) &&
        doc.body == old(doc.body) && doc.keyListeners == old(doc.keyListeners))
    {
      match key
      case Escape => Close();
      case ArrowLeft => UpdateImage(index - 1);
      case ArrowRight => UpdateImage(index + 1);
      case OtherKey =>
    }

    /** A key pressed in the document reaches this carousel only while its handler is registered. */
    method PressKey(key: Key)
      requires Valid()
      modifies this`index, doc
      ensures Valid()
      ensures old(this !in doc.keyListeners) ==>
        index == old(index) && doc.body == old(doc.body) && doc.keyListeners == old(doc.keyListeners)
      ensures old(this in doc.keyListeners) && key == Escape ==> (index == old(index) &&
        doc.body == old(doc.body) - {this} && doc.keyListeners == old(doc.keyListeners) - {this})
      ensures old(this in doc.keyListeners) && key == ArrowLeft ==> (index == Wrap(old(index) - 1, |images|) &&
        doc.body == old(doc.body) && doc.keyListeners == old(doc.keyListeners))
      ensures old(this in doc.keyListeners) && key == ArrowRight ==> (index == Wrap(old(index) + 1, |images|) &&
        doc.body == old(doc.body) && doc.keyListeners == old(doc.keyListeners))
      ensures old(this in doc.keyListeners) && key == OtherKey ==> (index == old(index) &&
        doc.body == old(doc.body) && doc.keyListeners == old(doc.keyListeners))
    {
      if this in doc.keyListeners {
        OnKeyDown(key);
      }
    }

    /** A click on the overlay closes it when it lands on the background, not on the content panel. */
    method ClickOverlay(onBackground: bool)
      modifies doc
      ensures onBackground ==>
        doc.body == old(doc.body) - {this} && doc.keyListeners == old(doc.keyListeners) - {this}
      ensures !onBackground ==> doc.body == old(doc.body) && doc.keyListeners == old(doc.keyListeners)
    {
      if onBackground {
        Close();
      }
    }
  }

  /** `openGalleryModal(images, 0)`: nothing happens for an empty list. */
  method OpenGalleryModal(doc: Document, images: seq<string>) returns (modal: Carousel?)
    modifies doc
    ensures |images| == 0 ==> (modal == null &&
      doc.body == old(doc.body) && doc.keyListeners == old(doc.keyListeners))
    ensures |images| > 0 ==> (modal != null && fresh(modal) && modal.Valid() &&
      modal.doc == doc && modal.images == images && modal.index == 0 &&
      doc.body == old(doc.body) + {modal} && doc.keyListeners == old(doc.keyListeners) + {modal})
  {
    if |images| == 0 {
      return null;
    }
    modal := new Carousel.Open(doc, images);
  }

  /**
   * A whole session: open, step back to the last image, forward to the first,
   * close twice and press Escape. The document ends as it began: no overlay
   * and no key handler are left behind, and the second close and the late
   * Escape change nothing.
   */
  method OpenNavigateClose(doc: Document, images: seq<string>)
    requires |images| > 0
    modifies doc
    ensures doc.body == old(doc.body) && doc.keyListeners == old(doc.keyListeners)
  {
    var modal := new Carousel.Open(doc, images);
    modal.ShowPrevious();
    assert modal.index == |images| - 1;
    modal.ShowNext();
    assert modal.index == 0;
    modal.Close();
    ghost var bodyAfterClose, listenersAfterClose := doc.body, doc.keyListeners;
    modal.Close();
    assert doc.body == bodyAfterClose && doc.keyListeners == listenersAfterClose;
    modal.PressKey(Escape);
    assert modal.index == 0 && doc.body == bodyAfterClose;
  }
}
