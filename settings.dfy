/** The settings the core reads: the two enumerations, and the mapping between
    the centred "scroll speed multiplier" slider (0..100, 50 meaning x1) and the
    stored scale percentage (20..500), with the slider's snap to its centre. */
module FMSSettings {
  import opened Kotlin

  datatype InertiaAlgorithm = EXPONENTIAL | LINEAR
  datatype InertiaDirection = BOTH | VERTICAL | NONE

  /** `ScrollMultiplierMapper.sliderToScale`: the left half interpolates x0.2..x1,
      the right half x1..x5, each truncated to a whole percentage. */
  function SliderToScale(sliderValue: int): (scale: int)
    ensures 0 <= sliderValue <= 100 ==> 20 <= scale <= 500
    ensures 0 <= sliderValue < 50 ==> scale < 100
    ensures 50 <= sliderValue ==> 100 <= scale
  {
    if sliderValue < 50 then
      20 + Trunc((sliderValue as real / 50.0) * 80.0)
    else
      100 + Trunc(((sliderValue - 50) as real / 50.0) * 400.0)
  }

  /** `ScrollMultiplierMapper.scaleToSlider`: percentages 20..100 onto 0..50 and
      100..500 onto 50..100, truncated. */
  function ScaleToSlider(scaleValue: int): (slider: int)
    ensures 20 <= scaleValue <= 500 ==> 0 <= slider <= 100
    ensures 20 <= scaleValue < 100 ==> slider < 50
    ensures 100 <= scaleValue ==> 50 <= slider
  {
    if scaleValue < 100 then
      Trunc((scaleValue - 20) as real / 80.0 * 50.0)
    else
      50 + Trunc(((scaleValue - 100) as real / 400.0) * 50.0)
  }

  /** The labelled ends and centre of the slider map to x0.2, x1 and x5. */
  lemma SliderToScaleLandmarks()
    ensures SliderToScale(0) == 20 && SliderToScale(50) == 100 && SliderToScale(100) == 500
  {
    assert (50 - 50) as real / 50.0 * 400.0 == 0.0;
    assert (100 - 50) as real / 50.0 * 400.0 == 400.0;
  }

  /** x0.2, x1 and x5 map back to the slider's ends and centre. */
  lemma ScaleToSliderLandmarks()
    ensures ScaleToSlider(20) == 0 && ScaleToSlider(100) == 50 && ScaleToSlider(500) == 100
  {
    assert (500 - 100) as real / 400.0 * 50.0 == 50.0;
  }

  /** Moving the slider right never lowers the scale. */
  lemma {:induction false} SliderToScaleMonotone(a: int, b: int)
    requires 0 <= a <= b <= 100
    ensures SliderToScale(a) <= SliderToScale(b)
  {
    if b < 50 {
      TruncMonotone(a as real / 50.0 * 80.0, b as real / 50.0 * 80.0);
    } else if 50 <= a {
      TruncMonotone((a - 50) as real / 50.0 * 400.0, (b - 50) as real / 50.0 * 400.0);
    }
  }

  /** A larger scale never shows a slider further left. */
  lemma {:induction false} ScaleToSliderMonotone(a: int, b: int)
    requires 20 <= a <= b <= 500
    ensures ScaleToSlider(a) <= ScaleToSlider(b)
  {
    if b < 100 {
      TruncMonotone((a - 20) as real / 80.0 * 50.0, (b - 20) as real / 80.0 * 50.0);
    } else if 100 <= a {
      TruncMonotone((a - 100) as real / 400.0 * 50.0, (b - 100) as real / 400.0 * 50.0);
    }
  }

  /** Reopening the settings shows the slider where it was left on the right
      half; on the left half truncation can move it one position left
      (slider 1 gives 21%, which shows as slider 0). */
  lemma {:induction false} SliderRoundTrip(s: int)
    requires 0 <= s <= 100
    ensures 50 <= s ==> ScaleToSlider(SliderToScale(s)) == s
    ensures s < 50 ==> s - 1 <= ScaleToSlider(SliderToScale(s)) <= s
    ensures ScaleToSlider(SliderToScale(1)) == 0
  {
    if s < 50 {
      var k := Trunc(s as real / 50.0 * 80.0);
      assert s as real / 50.0 * 80.0 == s as real * 8.0 / 5.0;
      assert SliderToScale(s) == 20 + k;
      assert (20 + k - 20) as real / 80.0 * 50.0 == k as real * 5.0 / 8.0;
    } else {
      var k := Trunc((s - 50) as real / 50.0 * 400.0);
      assert (s - 50) as real / 50.0 * 400.0 == (8 * (s - 50)) as real;
      assert k == 8 * (s - 50);
      assert SliderToScale(s) == 100 + k;
      assert (100 + k - 100) as real / 400.0 * 50.0 == (s - 50) as real;
    }
    assert 1 as real / 50.0 * 80.0 == 1.6;
    assert SliderToScale(1) == 21;
    assert (21 - 20) as real / 80.0 * 50.0 == 0.625;
  }

  /** The change listener's snap: within three positions of the centre the
      slider jumps to the centre; elsewhere it stays where the user put it. */
  function SnapToCenter(sliderValue: int): (snapped: int)
    ensures (47 <= sliderValue <= 53) == (snapped == 50)
    ensures snapped != 50 ==> snapped == sliderValue
  {
    if 47 <= sliderValue <= 53 && sliderValue != 50 then 50 else sliderValue
  }

  /** The scale the change listener stores for a slider position. */
  function StoredScale(sliderValue: int): (scale: int)
    ensures 0 <= sliderValue <= 100 ==> 20 <= scale <= 500
    ensures 47 <= sliderValue <= 53 ==> scale == 100
  {
    SliderToScaleLandmarks();
    SliderToScale(SnapToCenter(sliderValue))
  }
}
